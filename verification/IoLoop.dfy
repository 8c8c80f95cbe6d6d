/** `handle_io` with its one-entry translation cache (`kvmctl.c`, lines 19 to 54 and 169 to 279):
    port input and output, of RAX or of strings, with and without REP. */
module IoLoop {
  import opened Entries

  const PAGE: nat := 4096
  const W64: nat := 0x1_0000_0000_0000_0000
  type U64 = x: nat | x < W64

  datatype Io = Io(input: bool, size: nat, isString: bool, down: bool, rep: bool, count: U64, address: U64)

  /** RAX as its bytes, lowest first. */
  datatype Regs = Regs(rax: seq<bv8>, rcx: U64, rsi: U64, rdi: U64)

  /** The callback's answer: the bytes it puts in `value` (for input) and its result. */
  datatype Reply = Reply(value: seq<bv8>, error: int)
  type Device = nat -> Reply

  ghost predicate Sized(device: Device, size: nat) {
    forall k :: |device(k).value| == size
  }

  /** KVM_TRANSLATE: guest page to page of `physical_memory`. */
  type Translation = map<nat, nat>

  /** `calls` counts callbacks, `sent` holds what output callbacks were given. */
  datatype State = State(io: Io, regs: Regs, mem: seq<bv8>, sent: seq<seq<bv8>>, calls: nat)

  datatype Outcome = Finished | Failed(error: int) | Exited

  predicate GoodSize(n: nat) { n == 1 || n == 2 || n == 4 }

  function Delta(io: Io): int { if io.down then 0 - io.size else io.size }

  function Move(x: U64, delta: int): U64 { (x + delta) % W64 }

  function Want(io: Io): nat { if io.rep then io.count else 1 }

  ghost predicate Fits(tr: Translation, length: nat) {
    forall p :: p in tr ==> (tr[p] + 1) * PAGE <= length
  }

  /** Where the element at `address` lies. */
  function Place(tr: Translation, address: U64): nat
    requires address / PAGE in tr
  {
    tr[address / PAGE] * PAGE + address % PAGE
  }

  predicate Whole(io: Io) { io.address % PAGE + io.size <= PAGE }

  // ---------------------------------------------------------------- specification

  predicate Ready(tr: Translation, s: State) {
    && GoodSize(s.io.size) && |s.regs.rax| == 8
    && (s.io.isString ==> s.io.address / PAGE in tr && Place(tr, s.io.address) + s.io.size <= |s.mem|)
  }

  function Store(mem: seq<bv8>, at: nat, value: seq<bv8>): (r: seq<bv8>)
    requires at + |value| <= |mem|
    ensures |r| == |mem|
  {
    mem[..at] + value + mem[at + |value|..]
  }

  /** The pointer, and under REP the counts, after one string element. */
  function Advance(io: Io, regs: Regs): (Io, Regs) {
    if !io.isString then (io, regs) else
    var moved := if io.input then regs.(rdi := Move(regs.rdi, Delta(io))) else regs.(rsi := Move(regs.rsi, Delta(io)));
    var next := io.(address := Move(io.address, Delta(io)));
    if io.rep then (next.(count := Move(io.count, -1)), moved.(rcx := Move(regs.rcx, -1))) else (next, moved)
  }

  /** One element with its address translated afresh. */
  ghost function Element(tr: Translation, device: Device, s: State): (r: State)
    requires Sized(device, s.io.size)
    ensures r.io.size == s.io.size && |r.mem| == |s.mem|
  {
    if !Ready(tr, s) then s else
    var value := device(s.calls).value;
    assert |value| == s.io.size;
    var (io, regs) := Advance(s.io, s.regs);
    if s.io.isString then
      var at := Place(tr, s.io.address);
      State(io, regs, if io.input then Store(s.mem, at, value) else s.mem,
            if io.input then s.sent else s.sent + [s.mem[at..at + io.size]], s.calls + 1)
    else if io.input then State(io, regs.(rax := value + s.regs.rax[io.size..]), s.mem, s.sent, s.calls + 1)
    else State(io, regs, s.mem, s.sent + [s.regs.rax[..io.size]], s.calls + 1)
  }

  ghost function Elements(tr: Translation, device: Device, s: State, n: nat): (r: State)
    requires Sized(device, s.io.size)
    ensures r.io.size == s.io.size && |r.mem| == |s.mem|
  {
    if n == 0 then s else Element(tr, device, Elements(tr, device, s, n - 1))
  }

  /** The first `n` elements can be translated, and none crosses a page. */
  ghost predicate Clear(tr: Translation, device: Device, s: State, n: nat)
    requires Sized(device, s.io.size)
  {
    forall k: nat :: k < n ==> Ready(tr, Elements(tr, device, s, k))
  }

  // ---------------------------------------------------------------- the loop

  class Session {
    var io: Io
    var vcpu: Regs
    var mem: array<bv8>
    var sent: seq<seq<bv8>>
    var calls: nat
    var emulated: bool

    function Now(): State reads this, mem { State(io, vcpu, mem[..], sent, calls) }

    constructor (io: Io, vcpu: Regs, mem: array<bv8>)
      ensures this.io == io && this.vcpu == vcpu && this.mem == mem && sent == [] && calls == 0 && !emulated
    {
      this.io, this.vcpu, this.mem, sent, calls, emulated := io, vcpu, mem, [], 0, false;
    }

    /** `translate`: the cache answers for the page it holds. */
    static method Translate(tr: Translation, cached: Option<(nat, nat)>, linear: U64)
        returns (place: Option<nat>, now: Option<(nat, nat)>)
      requires CacheOk(tr, cached)
      ensures CacheOk(tr, now)
      ensures place == if linear / PAGE in tr then Some(Place(tr, linear)) else None
    {
      var page := linear / PAGE;
      now := cached;
      if !(now.Some? && now.value.0 == page) {
        if page !in tr { return None, now; }
        now := Some((page, tr[page] * PAGE));
      }
      place := Some(now.value.1 + linear % PAGE);
    }

    /** The body of the loop once `value_addr` is known. */
    method Transfer(tr: Translation, device: Device, regs: Regs, at: nat) returns (moved: Regs, error: int)
      requires Sized(device, io.size)
      requires Ready(tr, State(io, regs, mem[..], sent, calls)) && (io.isString ==> at == Place(tr, io.address))
      modifies this`io, this`sent, this`calls, mem
      ensures State(io, moved, mem[..], sent, calls) == Element(tr, device, old(State(io, regs, mem[..], sent, calls)))
      ensures error == device(old(calls)).error && calls == old(calls) + 1
      ensures |moved.rax| == 8 && io == Advance(old(io), regs).0
    {
      ghost var was := mem[..];
      moved := regs;
      var reply := device(calls);
      if io.input {
        if io.isString {
          forall k | 0 <= k < io.size { mem[at + k] := reply.value[k]; }
          assert mem[..] == Store(was, at, reply.value);
        } else {
          moved := regs.(rax := reply.value + regs.rax[io.size..]);
        }
      } else {
        sent := sent + [if io.isString then mem[at..at + io.size] else regs.rax[..io.size]];
      }
      calls := calls + 1;
      var next := Advance(io, moved);
      io, moved := next.0, next.1;
      error := reply.error;
    }

    /** On every way out but an exit the guest's registers have moved with the elements done, whether the
        last callback failed or not. */
    method HandleIo(tr: Translation, device: Device) returns (outcome: Outcome, ghost done: nat)
      requires Sized(device, io.size) && |vcpu.rax| == 8 && Fits(tr, mem.Length) && (io.rep ==> io.isString)
      requires io.isString ==> forall k: nat :: k < Want(io) ==> Whole(Elements(tr, device, Now(), k).io)
      modifies this, mem
      ensures mem == old(mem) && Ended(tr, device, old(Now()), Now(), outcome, done)
      ensures emulated == (old(emulated) || outcome.Finished?)
      ensures outcome.Exited? ==> vcpu == old(vcpu)
    {
      ghost var start := Now();
      var regs := vcpu;
      var first := true;
      var cached: Option<(nat, nat)> := None;
      done := 0;
      hide Element, Ready, Elements, Clear, Fits, Sized, Place, Advance;
      NoneDone(tr, device, start);
      while if io.rep then io.count != 0 else first
        invariant vcpu == old(vcpu) && mem == old(mem) && emulated == old(emulated) && CacheOk(tr, cached)
        invariant Progress(tr, device, start, State(io, regs, mem[..], sent, calls), done)
        invariant !io.rep ==> first == (done == 0)
        decreases Want(start.io) - done
      {
        ghost var was := State(io, regs, mem[..], sent, calls);
        ReadyWhen(tr, was);
        var at: nat := 0;
        if io.isString {
          var place: Option<nat>;
          place, cached := Translate(tr, cached, io.address);
          if place.None? { return Exited, done; }
          at := place.value;
        }
        if !GoodSize(io.size) { return Exited, done; }
        var error: int;
        regs, error := Transfer(tr, device, regs, at);
        OneMore(tr, device, start, was, done);
        first, done := false, done + 1;
        if error != 0 {
          vcpu := regs;
          return Failed(error), done;
        }
      }
      vcpu := regs;
      emulated := true;
      outcome := Finished;
    }
  }

  /** `done` elements have been transferred, without an error so far. */
  ghost predicate Progress(tr: Translation, device: Device, start: State, now: State, done: nat)
    requires Sized(device, start.io.size)
  {
    && done <= Want(start.io) && now == Elements(tr, device, start, done) && Clear(tr, device, start, done)
    && now.calls == start.calls + done && |now.regs.rax| == 8
    && now.io == start.io.(count := now.io.count, address := now.io.address)
    && (now.io.rep ==> now.io.count == start.io.count - done)
    && forall k :: start.calls <= k < now.calls ==> device(k).error == 0
  }

  /** What the call has done: all it was asked for; or up to and with the callback that failed; or up to
      an element that has no translation or no legal size. */
  ghost predicate Ended(tr: Translation, device: Device, start: State, now: State, outcome: Outcome, done: nat)
    requires Sized(device, start.io.size)
  {
    && done <= Want(start.io) && Clear(tr, device, start, done)
    && (forall k :: start.calls <= k < start.calls + done - 1 ==> device(k).error == 0)
    && match outcome
       case Finished => done == Want(start.io) && now == Elements(tr, device, start, done)
                        && forall k :: start.calls <= k < start.calls + done ==> device(k).error == 0
       case Failed(e) => done > 0 && e == device(start.calls + done - 1).error != 0 &&
           now == Elements(tr, device, start, done)
       case Exited => done < Want(start.io) && !Ready(tr, Elements(tr, device, start, done))
  }

  lemma NoneDone(tr: Translation, device: Device, start: State)
    requires Sized(device, start.io.size) && |start.regs.rax| == 8
    ensures Progress(tr, device, start, start, 0)
  {
  }

  lemma ElementShape(tr: Translation, device: Device, s: State)
    requires Sized(device, s.io.size) && Ready(tr, s) && (s.io.rep ==> s.io.isString)
    ensures var r := Element(tr, device, s);
            && r.calls == s.calls + 1 && |r.regs.rax| == 8
            && r.io == s.io.(count := r.io.count, address := r.io.address)
            && (s.io.rep && s.io.count > 0 ==> r.io.count == s.io.count - 1)
  {
  }

  lemma OneMore(tr: Translation, device: Device, start: State, was: State, done: nat)
    requires Sized(device, start.io.size) && Progress(tr, device, start, was, done)
    requires done < Want(start.io) && Ready(tr, was) && (was.io.rep ==> was.io.isString)
    ensures var now := Element(tr, device, was);
            if device(was.calls).error == 0 then Progress(tr, device, start, now, done + 1)
            else Ended(tr, device, start, now, Failed(device(was.calls).error), done + 1)
  {
    assert Elements(tr, device, start, done + 1) == Element(tr, device, was);
    ElementShape(tr, device, was);
    hide Element, Elements, Ready, Sized;
  }

  ghost predicate CacheOk(tr: Translation, cached: Option<(nat, nat)>) {
    cached.Some? ==> cached.value.0 in tr && cached.value.1 == tr[cached.value.0] * PAGE
  }

  lemma ReadyWhen(tr: Translation, s: State)
    requires Fits(tr, |s.mem|) && |s.regs.rax| == 8 && (s.io.isString ==> Whole(s.io))
    ensures Ready(tr, s) <==> GoodSize(s.io.size) && (s.io.isString ==> s.io.address / PAGE in tr)
  {
  }

  // ---------------------------------------------------------------- what the elements add up to

  /** `x` moved `k` times by `delta`, modulo 2^64. */
  function Moved(x: U64, k: nat, delta: int): U64 { (x + k * delta) % W64 }

  lemma MovedOnce(x: U64, k: nat, delta: int)
    ensures Move(Moved(x, k, delta), delta) == Moved(x, k + 1, delta)
  {
    assert x + (k + 1) * delta == x + k * delta + delta;
    ModAdd(x + k * delta, delta);
  }

  lemma ModAdd(x: int, y: int)
    ensures (x % W64 + y) % W64 == (x + y) % W64
  {
    var q, q' := x / W64, (x % W64 + y) / W64;
    assert x + y == (q + q') * W64 + (x % W64 + y) % W64;
  }

  lemma ElementMoves(tr: Translation, device: Device, s: State)
    requires Sized(device, s.io.size) && Ready(tr, s) && s.io.isString
    ensures var r := Element(tr, device, s);
            && r.calls == s.calls + 1 && (r.io, r.regs) == Advance(s.io, s.regs)
            && (s.io.input ==> |device(s.calls).value| == s.io.size && Place(tr, s.io.address) + s.io.size <= |s.mem|
                               && r.mem == Store(s.mem, Place(tr, s.io.address), device(s.calls).value))
  {
  }

  /** The pointer the instruction uses moved `n` times, in step with the address; under REP RCX and the
      count both less by `n`; nothing else changed. */
  function After(io: Io, regs: Regs, n: nat): (r: (Io, Regs))
    requires io.rep ==> n <= io.count && n <= regs.rcx
    ensures r.0.isString == io.isString && r.0.size == io.size && (n == 0 ==> r == (io, regs))
  {
    (io.(address := Moved(io.address, n, Delta(io)), count := if io.rep then io.count - n else io.count),
     regs.(rdi := if io.input then Moved(regs.rdi, n, Delta(io)) else regs.rdi,
           rsi := if io.input then regs.rsi else Moved(regs.rsi, n, Delta(io)),
           rcx := if io.rep then regs.rcx - n else regs.rcx))
  }

  lemma AfterNext(io: Io, regs: Regs, n: nat)
    requires io.isString && (io.rep ==> n < io.count && n < regs.rcx)
    ensures Advance(After(io, regs, n).0, After(io, regs, n).1) == After(io, regs, n + 1)
  {
    MovedOnce(io.address, n, Delta(io));
    MovedOnce(regs.rdi, n, Delta(io));
    MovedOnce(regs.rsi, n, Delta(io));
    hide Moved;
  }

  lemma ElementsNext(tr: Translation, device: Device, s: State, n: nat)
    requires Sized(device, s.io.size) && Clear(tr, device, s, n + 1)
    ensures Elements(tr, device, s, n + 1) == Element(tr, device, Elements(tr, device, s, n))
    ensures Ready(tr, Elements(tr, device, s, n)) && Clear(tr, device, s, n)
  {
  }

  lemma ClearLess(tr: Translation, device: Device, s: State, m: nat, n: nat)
    requires Sized(device, s.io.size) && Clear(tr, device, s, n) && m <= n
    ensures Clear(tr, device, s, m)
  {
  }

  /** `r` is `n` elements on from `s`. */
  ghost predicate Arrived(s: State, r: State, n: nat)
    requires s.io.rep ==> n <= s.io.count && n <= s.regs.rcx
  {
    r.calls == s.calls + n && (r.io, r.regs) == After(s.io, s.regs, n)
  }

  lemma ArrivedNext(tr: Translation, device: Device, s: State, was: State, n: nat)
    requires s.io.isString && (s.io.rep ==> n < s.io.count && n < s.regs.rcx)
    requires Sized(device, was.io.size) && Ready(tr, was) && Arrived(s, was, n)
    ensures Arrived(s, Element(tr, device, was), n + 1)
  {
    hide After, Element, Advance;
    ElementMoves(tr, device, was);
    AfterNext(s.io, s.regs, n);
  }

  /** After `n` elements of a string the registers and the request are where `n` elements put them. */
  lemma {:induction false} ElementsMove(tr: Translation, device: Device, s: State, n: nat)
    requires Sized(device, s.io.size) && Clear(tr, device, s, n) && s.io.isString
    requires (s.io.rep ==> n <= s.io.count && n <= s.regs.rcx)
    ensures Arrived(s, Elements(tr, device, s, n), n)
  {
    if n > 0 {
      hide *;
      ElementsNext(tr, device, s, n - 1);
      ElementsMove(tr, device, s, n - 1);
      ArrivedNext(tr, device, s, Elements(tr, device, s, n - 1), n - 1);
    }
  }

  lemma {:induction false} Compose(tr: Translation, device: Device, s: State, k: nat, m: nat)
    requires Sized(device, s.io.size)
    ensures Elements(tr, device, Elements(tr, device, s, k), m) == Elements(tr, device, s, k + m)
    decreases m
  {
    if m > 0 {
      Compose(tr, device, s, k, m - 1);
    }
  }

  /** A REP transfer cut short by a failing callback and entered again with the registers it left does
      every element exactly once: the two calls together are one uninterrupted transfer. */
  lemma RestartDoesTheRest(tr: Translation, device: Device, start: State, cut: State, end: State, error: int,
      k: nat, m: nat)
    requires Sized(device, start.io.size) && start.io.isString && start.io.rep && start.io.count == start.regs.rcx
    requires Ended(tr, device, start, cut, Failed(error), k) && cut.io.size == start.io.size
    requires Ended(tr, device, cut, end, Finished, m)
    ensures cut.io.count == cut.regs.rcx
    ensures k + m == start.io.count && end == Elements(tr, device, start, start.io.count)
    ensures end.io.count == 0 && end.regs.rcx == 0 && end.calls == start.calls + start.io.count
  {
    hide Elements, Clear, Moved, Element;
    ElementsMove(tr, device, start, k);
    Compose(tr, device, start, k, m);
    ElementsMove(tr, device, cut, m);
  }

  /** Where element `k` of the string lies. */
  function Spot(tr: Translation, io: Io, k: nat): nat {
    var a := Moved(io.address, k, Delta(io));
    if a / PAGE in tr then Place(tr, a) else 0
  }

  predicate Beside(tr: Translation, io: Io, j: nat, k: nat) {
    Spot(tr, io, j) + io.size <= Spot(tr, io, k) || Spot(tr, io, k) + io.size <= Spot(tr, io, j)
  }

  function Bytes(mem: seq<bv8>, at: nat, size: nat): seq<bv8> {
    if at + size <= |mem| then mem[at..at + size] else []
  }

  lemma LastLoad(tr: Translation, device: Device, s: State, n: nat)
    requires Sized(device, s.io.size) && Clear(tr, device, s, n + 1) && s.io.isString && !s.io.input
    requires s.io.rep ==> n < s.io.count && n < s.regs.rcx
    ensures var was, now := Elements(tr, device, s, n), Elements(tr, device, s, n + 1);
            && now.mem == was.mem && now.sent == was.sent + [Bytes(was.mem, Spot(tr, s.io, n), s.io.size)]
  {
    ElementsMove(tr, device, s, n);
    var was := Elements(tr, device, s, n);
    assert Elements(tr, device, s, n + 1) == Element(tr, device, was) && Ready(tr, was);
    assert was.io.address == Moved(s.io.address, n, Delta(s.io));
    hide Moved, Elements, Sized;
  }

  /** The bytes of the first `n` elements. */
  function BytesOf(tr: Translation, mem: seq<bv8>, io: Io, n: nat): seq<seq<bv8>> {
    if n == 0 then [] else BytesOf(tr, mem, io, n - 1) + [Bytes(mem, Spot(tr, io, n - 1), io.size)]
  }

  /** OUTS hands the device the bytes at the `n` addresses, in order, and changes no memory. */
  lemma {:induction false} OutputInOrder(tr: Translation, device: Device, s: State, n: nat)
    requires Sized(device, s.io.size) && Clear(tr, device, s, n) && s.io.isString && !s.io.input
    requires s.io.rep ==> n <= s.io.count && n <= s.regs.rcx
    ensures Elements(tr, device, s, n).mem == s.mem
    ensures Elements(tr, device, s, n).sent == s.sent + BytesOf(tr, s.mem, s.io, n)
  {
    if n > 0 {
      hide Elements, Bytes, Spot, Sized, Clear;
      ClearLess(tr, device, s, n - 1, n);
      OutputInOrder(tr, device, s, n - 1);
      LastLoad(tr, device, s, n - 1);
    }
  }

  /** The bytes at `at` are `value`. */
  predicate Holds(mem: seq<bv8>, at: nat, value: seq<bv8>) {
    at + |value| <= |mem| && mem[at..at + |value|] == value
  }

  lemma StoreHolds(mem: seq<bv8>, at: nat, value: seq<bv8>)
    requires at + |value| <= |mem|
    ensures Holds(Store(mem, at, value), at, value)
  {
  }

  lemma Untouched(tr: Translation, io: Io, j: nat, k: nat, mem: seq<bv8>, value: seq<bv8>, kept: seq<bv8>)
    requires |value| == io.size && |kept| == io.size && Beside(tr, io, j, k)
    requires Spot(tr, io, j) + |value| <= |mem| && Holds(mem, Spot(tr, io, k), kept)
    ensures Holds(Store(mem, Spot(tr, io, j), value), Spot(tr, io, k), kept)
  {
    hide Spot;
    var at := Spot(tr, io, k);
    assert forall i :: at <= i < at + |kept| ==> Store(mem, Spot(tr, io, j), value)[i] == mem[i];
    assert Store(mem, Spot(tr, io, j), value)[at..at + |kept|] == mem[at..at + |kept|];
  }

  /** The last element alone. */
  lemma LastStore(tr: Translation, device: Device, s: State, n: nat)
    requires Sized(device, s.io.size) && Clear(tr, device, s, n + 1) && s.io.isString && s.io.input
    requires s.io.rep ==> n < s.io.count && n < s.regs.rcx
    ensures var was := Elements(tr, device, s, n).mem;
            var value := device(s.calls + n).value;
            && |value| == s.io.size && Spot(tr, s.io, n) + |value| <= |was|
            && Elements(tr, device, s, n + 1).mem == Store(was, Spot(tr, s.io, n), value)
  {
    ElementsMove(tr, device, s, n);
    var was := Elements(tr, device, s, n);
    assert Elements(tr, device, s, n + 1) == Element(tr, device, was) && Ready(tr, was);
    assert was.io.address == Moved(s.io.address, n, Delta(s.io));
    hide Moved, Elements, Element, Store;
    ElementMoves(tr, device, was);
  }

  /** INS leaves the device's answer `k` at the `k`th address, if no later element overlaps it. */
  lemma {:induction false} InputLands(tr: Translation, device: Device, s: State, n: nat, k: nat)
    requires Sized(device, s.io.size) && Clear(tr, device, s, n) && s.io.isString && s.io.input && k < n
    requires s.io.rep ==> n <= s.io.count && n <= s.regs.rcx
    requires forall j: nat :: k < j < n ==> Beside(tr, s.io, j, k)
    ensures |device(s.calls + k).value| == s.io.size
    ensures Holds(Elements(tr, device, s, n).mem, Spot(tr, s.io, k), device(s.calls + k).value)
  {
    hide *;
    var was := Elements(tr, device, s, n - 1).mem;
    LastStore(tr, device, s, n - 1);
    if k < n - 1 {
      ClearLess(tr, device, s, n - 1, n);
      InputLands(tr, device, s, n - 1, k);
      Untouched(tr, s.io, n - 1, k, was, device(s.calls + n - 1).value, device(s.calls + k).value);
    } else {
      StoreHolds(was, Spot(tr, s.io, k), device(s.calls + k).value);
    }
  }
}
