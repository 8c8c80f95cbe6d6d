/** Port input and output as the manual describes them (IN, OUT, INS and OUTS in volume 2 of the Intel SDM),
    against the elements of `IoLoop`. */
module IoMeaning {
  import opened Entries
  import opened IoLoop

  /** `x` after `k` elements: upwards with DF clear, downwards with DF set, modulo 2^64. */
  function Shifted(io: Io, x: U64, k: nat): nat {
    (if io.down then x - k * io.size else x + k * io.size) % 0x1_0000_0000_0000_0000
  }

  lemma ShiftedIs(io: Io, x: U64, k: nat)
    ensures Moved(x, k, Delta(io)) == Shifted(io, x, k)
  {
    if io.down {
      assert k * (0 - io.size) == 0 - k * io.size;
    }
  }

  /** Where the `k`th element of a string lies: its address is `k` sizes on, in the page that the guest page is
      mapped to. */
  lemma SpotIs(tr: Translation, io: Io, k: nat)
    ensures var a := Shifted(io, io.address, k);
            a / 4096 in tr ==> Spot(tr, io, k) == tr[a / 4096] * 4096 + a % 4096
  {
    ShiftedIs(io, io.address, k);
    hide Moved, Shifted;
  }

  /** After `n` elements of a string: RDI for INS and RSI for OUTS are `n` sizes on, RCX is `n` less under REP,
      RAX and the other pointer are as they were, and there was one callback for each element. */
  lemma StringEnds(tr: Translation, device: Device, s: State, n: nat)
    requires Sized(device, s.io.size) && Clear(tr, device, s, n) && s.io.isString
    requires s.io.rep ==> n <= s.io.count && n <= s.regs.rcx
    ensures var r := Elements(tr, device, s, n);
            && r.calls == s.calls + n && r.regs.rax == s.regs.rax
            && r.regs.rdi == (if s.io.input then Shifted(s.io, s.regs.rdi, n) else s.regs.rdi)
            && r.regs.rsi == (if s.io.input then s.regs.rsi else Shifted(s.io, s.regs.rsi, n))
            && r.regs.rcx == (if s.io.rep then s.regs.rcx - n else s.regs.rcx)
            && r.io == s.io.(address := Shifted(s.io, s.io.address, n),
                             count := if s.io.rep then s.io.count - n else s.io.count)
  {
    ElementsMove(tr, device, s, n);
    ShiftedIs(s.io, s.regs.rdi, n);
    ShiftedIs(s.io, s.regs.rsi, n);
    ShiftedIs(s.io, s.io.address, n);
    hide Elements, Moved, Shifted, Clear, Sized;
  }

  /** IN and OUT of a register: one callback. IN puts the device's answer in the low bytes of RAX; OUT hands the
      device those bytes. Nothing else changes. */
  lemma RegisterIo(tr: Translation, device: Device, s: State)
    requires Sized(device, s.io.size) && |s.regs.rax| == 8 && !s.io.isString && !s.io.rep
    requires s.io.size == 1 || s.io.size == 2 || s.io.size == 4
    ensures Clear(tr, device, s, Want(s.io)) && Want(s.io) == 1
    ensures var r := Elements(tr, device, s, Want(s.io));
            var n := s.io.size;
            && r.calls == s.calls + 1 && r.mem == s.mem && r.io == s.io
            && r.regs.rcx == s.regs.rcx && r.regs.rsi == s.regs.rsi && r.regs.rdi == s.regs.rdi
            && |r.regs.rax| == 8 && r.regs.rax[n..] == s.regs.rax[n..]
            && (if s.io.input then r.regs.rax[..n] == device(s.calls).value && r.sent == s.sent
                else r.regs.rax == s.regs.rax && r.sent == s.sent + [s.regs.rax[..n]])
  {
    assert Elements(tr, device, s, 0) == s;
    assert Elements(tr, device, s, 1) == Element(tr, device, s);
  }

  /** In 64-bit mode the manual clears the upper half of RAX on a 32-bit IN (section 3.4.1.1 of volume 1). The
      code keeps it: the two agree exactly when it was clear. */
  lemma WideInExactly(tr: Translation, device: Device, s: State)
    requires Sized(device, 4) && |s.regs.rax| == 8 && !s.io.isString && !s.io.rep && s.io.input && s.io.size == 4
    ensures Elements(tr, device, s, 1).regs.rax == device(s.calls).value + [0, 0, 0, 0] <==>
            s.regs.rax[4..] == [0, 0, 0, 0]
  {
    RegisterIo(tr, device, s);
    var r := Elements(tr, device, s, 1).regs.rax;
    assert r == r[..4] + r[4..];
    assert device(s.calls).value + [0, 0, 0, 0] == r[..4] + [0, 0, 0, 0];
    assert (r[..4] + [0, 0, 0, 0])[4..] == [0, 0, 0, 0];
  }

  lemma KeepsUpperHalf()
    ensures exists tr: Translation, device: Device, s: State ::
              Sized(device, 4) && |s.regs.rax| == 8 && !s.io.isString && !s.io.rep && s.io.input && s.io.size == 4
              && Elements(tr, device, s, 1).regs.rax != device(s.calls).value + [0, 0, 0, 0]
  {
    var device: Device := k => Reply([1, 0, 0, 0], 0);
    var s := State(Io(true, 4, false, false, false, 0, 0), Regs([0, 0, 0, 0, 7, 0, 0, 0], 0, 0, 0), [], [], 0);
    WideInExactly(map[], device, s);
    assert s.regs.rax[4..] == [7, 0, 0, 0];
    assert [7 as bv8, 0, 0, 0][0] != [0 as bv8, 0, 0, 0][0];
  }
}
