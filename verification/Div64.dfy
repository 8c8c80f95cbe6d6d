/** `div64_u64` of `external-module-compat.c`, lines 118 to 134: 64-bit division with the divisor cut to
    its 32 highest bits, and how far off that can be. */
module Div64 {

  const W32: nat := 0x1_0000_0000
  const W64: nat := 0x1_0000_0000_0000_0000

  const HALF: nat := 0x8000_0000

  type U64 = x: nat | x < W64

  function Pow2(n: nat): (p: nat)
    ensures p > 0
  {
    if n == 0 then 1 else 2 * Pow2(n - 1)
  }

  /** Number of the highest set bit, counted from one; 0 for 0. */
  function Fls(x: nat): (n: nat)
    ensures x < Pow2(n) && (x > 0 ==> n > 0 && Pow2(n - 1) <= x)
  {
    if x == 0 then 0 else 1 + Fls(x / 2)
  }

  lemma {:induction false} FlsBound(x: nat, n: nat)
    requires x < Pow2(n)
    ensures Fls(x) <= n
    decreases n
  {
    if x > 0 {
      FlsBound(x / 2, n - 1);
    }
  }

  lemma {:induction false} Pow2Add(m: nat, n: nat)
    ensures Pow2(m + n) == Pow2(m) * Pow2(n)
    decreases m
  {
    if m > 0 {
      Pow2Add(m - 1, n);
      assert Pow2(m + n) == 2 * Pow2(m - 1 + n);
    }
  }

  ghost predicate IsQuotient(a: nat, b: nat, q: nat) { q * b <= a < (q + 1) * b }

  function Over(a: nat, b: nat): (q: nat)
    requires b > 0
    ensures IsQuotient(a, b, q)
  {
    assert a == a / b * b + a % b;
    a / b
  }

  function Shift(b: U64): nat { Fls(b / W32) }

  /** The divisor `do_div` gets: never zero, and within 32 bits. */
  function Cut(b: U64): (d: nat)
    requires b > 0
  {
    Over(b, Pow2(Shift(b)))
  }

  /** The bits of the divisor that the shift drops. */
  function Dropped(b: U64): (c: nat)
    requires b > 0
  {
    DroppedSmall(b);
    b - Cut(b) * Pow2(Shift(b))
  }

  lemma DroppedSmall(b: U64)
    requires b > 0
    ensures Cut(b) * Pow2(Shift(b)) <= b && b - Cut(b) * Pow2(Shift(b)) < Pow2(Shift(b))
    ensures b < W32 ==> Pow2(Shift(b)) == 1 && Cut(b) == b
  {
    hide Pow2, Fls;
    Remainder(b, Pow2(Shift(b)), Cut(b));
    if b < W32 {
      NoShift(b);
      ByOne(b);
    }
  }

  lemma NoShift(b: U64)
    requires b < W32
    ensures Shift(b) == 0 && Pow2(0) == 1
  {
    assert b / W32 == 0;
  }

  lemma Remainder(b: nat, p: nat, d: nat)
    requires IsQuotient(b, p, d)
    ensures d * p <= b && b - d * p < p
  {
    assert (d + 1) * p == d * p + p;
  }

  lemma ByOne(a: nat)
    ensures Over(a, 1) == a
  {
  }

  lemma OverIs(a: nat, b: nat)
    requires b > 0
    ensures Over(a, b) == a / b && a % b == a - a / b * b
  {
  }

  /** What `div64_u64` computes: both words shifted right by `fls` of the divisor's high half. */
  function Computed(a: U64, b: U64): nat
    requires b > 0
  {
    CutFits(b);
    Over(Over(a, Pow2(Shift(b))), Cut(b))
  }

  lemma CutFits(b: U64)
    requires b > 0
    ensures 0 < Cut(b) < W32
    ensures Shift(b) <= 32 && (b >= W32 ==> Cut(b) >= HALF && Shift(b) > 0)
  {
    var high, s := b / W32, Shift(b);
    ShiftAtMost32(high);
    if high > 0 {
      Bracket(b, high, Pow2(s), HALF);
    }
  }

  lemma ShiftAtMost32(high: nat)
    requires high < W32
    ensures Fls(high) <= 32
  {
    assert Pow2(32) == W32 by {
      Pow2Add(16, 16);
      Pow2Add(8, 8);
      assert Pow2(8) == 256;
    }
    hide Pow2, Fls;
    FlsBound(high, 32);
  }

  /** With p / 2 <= high < p, a word of high half `high` keeps exactly 32 bits when divided by p. */
  lemma Bracket(b: nat, high: nat, p: nat, h: nat)
    requires p > 0 && high < p <= 2 * high && high * (2 * h) <= b < (high + 1) * (2 * h)
    ensures h <= b / p < 2 * h
  {
    var d := b / p;
    Mul(2 * h, high + 1, p);
    Mul(h, p, 2 * high);
    Quotient(b, p, h);
    if 2 * h <= d { Mul(p, 2 * h, d); }
  }

  /** The code's body: both words shifted right, then a division by a 32-bit word. */
  method DivU64(dividend: U64, divisor: U64) returns (r: nat)
    requires divisor > 0
    ensures dividend / divisor <= r <= dividend / divisor + 1
    ensures r == dividend / divisor <==> (dividend / divisor + 1) * Dropped(divisor) < divisor - dividend % divisor
    ensures r == Computed(dividend, divisor)
  {
    Close(dividend, divisor);
    DroppedSmall(divisor);
    CutFits(divisor);
    hide Pow2, Fls, IsQuotient, Dropped;
    var n: nat, d: nat := dividend, divisor;
    var high := divisor / W32;
    if high != 0 {
      var shift := Fls(high);
      d := Over(divisor, Pow2(shift));
      n := Over(dividend, Pow2(shift));
    } else {
      ByOne(dividend);
    }
    r := Over(n, d);
  }

  /** `d * p` is the divisor with its low bits dropped: the quotient by it comes out. */
  lemma ShiftedQuotient(a: nat, d: nat, p: nat, x: nat, q: nat)
    requires IsQuotient(a, p, x) && IsQuotient(x, d, q) && p > 0
    ensures IsQuotient(a, d * p, q)
  {
    Mul(p, q * d, x);
    Mul(p, x + 1, (q + 1) * d);
    assert q * d * p == q * (d * p) && (q + 1) * d * p == (q + 1) * (d * p);
  }

  /** The heart of the bound: dropping the low bits `c` of the divisor costs less than one unit. */
  lemma DroppedBits(a: nat, d: nat, p: nat, c: nat, q: nat, h: nat)
    requires a < 4 * h * h && d >= h && p > 0 && c < p && q * (d * p) <= a && q > 0
    ensures (q - 1) * (d * p + c) <= a
  {
    SmallProduct(a, d, p, c, q, h);
    var m := d * p;
    assert (q - 1) * (m + c) == q * m + q * c - m - c;
  }

  lemma SmallProduct(a: nat, d: nat, p: nat, c: nat, q: nat, h: nat)
    requires a < 4 * h * h && d >= h && p > 0 && c < p && q * (d * p) <= a
    ensures q * c <= d * p
  {
    var x := q * p;
    assert x * d == q * (d * p);
    Mul(x, h, d);
    Cancel(x, 4 * h, h);
    Middle(q, p, h);
    Mul(q, c, p - 1);
    Mul(p, h, d);
  }

  lemma Cancel(x: nat, y: nat, k: nat)
    requires x * k < y * k
    ensures x < y
  {
    if y <= x { Mul(k, y, x); }
  }

  /** 4 * (p - 1) <= p * p, because (p - 2)^2 is not negative. */
  lemma Square(p: nat)
    requires p > 0
    ensures 4 * (p - 1) <= p * p
  {
    assert (p - 2) * (p - 2) >= 0;
  }

  lemma Middle(q: nat, p: nat, h: nat)
    requires p > 0 && q * p < 4 * h
    ensures q * (p - 1) <= h * p
  {
    var y := q * (p - 1);
    Mul(p - 1, q * p, 4 * h);
    Square(p);
    Mul(h, 4 * (p - 1), p * p);
    Regroup(q, p, h);
    if y > h * p {
      Mul(p, h * p + 1, y);
    }
  }

  lemma Regroup(q: nat, p: nat, h: nat)
    requires p > 0
    ensures (p - 1) * (q * p) == q * (p - 1) * p
    ensures (p - 1) * (4 * h) == h * (4 * (p - 1))
    ensures h * (p * p) == h * p * p
  {
  }

  lemma Mul(k: nat, x: nat, y: nat)
    requires x <= y
    ensures k * x <= k * y && x * k <= y * k
  {
  }

  /** The largest multiple. */
  lemma Quotient(a: nat, b: nat, q: nat)
    requires b > 0 && q * b <= a
    ensures q <= a / b
  {
    if q > a / b { Mul(b, a / b + 1, q); }
  }

  /** The result is the quotient or one more, and which of the two it is. */
  lemma Close(a: U64, b: U64)
    requires b > 0
    ensures a / b <= Computed(a, b) <= a / b + 1
    ensures Computed(a, b) == a / b <==> (a / b + 1) * Dropped(b) < b - a % b
  {
    hide Pow2, Fls, IsQuotient;
    CutFits(b);
    DroppedSmall(b);
    OverIs(a, b);
    var d, p, t := Cut(b), Pow2(Shift(b)), Over(a, b);
    var x, q := Over(a, p), Computed(a, b);
    assert Dropped(b) == b - d * p && q == Over(x, d);
    hide *;
    ExactTo(a, b, d, p, b - d * p, x, q, t);
    if b >= W32 {
      CloseTo(a, b, d, p, b - d * p, HALF, x, q, t);
    } else {
      NotCut(a, b, x, q, t);
    }
  }

  lemma NotCut(a: nat, b: nat, x: nat, q: nat, t: nat)
    requires b > 0 && IsQuotient(a, 1, x) && IsQuotient(x, b, q) && IsQuotient(a, b, t)
    ensures q == t
  {
    if q < t { Mul(b, q + 1, t); }
    if t < q { Mul(b, t + 1, q); }
  }

  /** Dividing by the cut divisor d * p in place of b = d * p + c, for words of any even width. */
  lemma CloseTo(a: nat, b: nat, d: nat, p: nat, c: nat, h: nat, x: nat, q: nat, t: nat)
    requires c < p && b == d * p + c && d >= h && a < 4 * h * h
    requires IsQuotient(a, p, x) && IsQuotient(x, d, q) && IsQuotient(a, b, t)
    ensures t <= q <= t + 1
  {
    ShiftedQuotient(a, d, p, x, q);
    if q < t {
      Mul(d * p, q + 1, t);
      Mul(t, d * p, b);
    }
    if t + 1 < q {
      DroppedBits(a, d, p, c, q, h);
      Mul(b, t + 1, q - 1);
    }
  }

  /** The quotient is not too large iff t + 1 multiples of the cut divisor go beyond a. */
  lemma ExactTo(a: nat, b: nat, d: nat, p: nat, c: nat, x: nat, q: nat, t: nat)
    requires p > 0 && d > 0 && b == d * p + c
    requires IsQuotient(a, p, x) && IsQuotient(x, d, q) && IsQuotient(a, b, t)
    ensures q <= t <==> (t + 1) * c < b - (a - t * b)
  {
    ShiftedQuotient(a, d, p, x, q);
    assert (t + 1) * b == (t + 1) * (d * p) + (t + 1) * c;
    assert (t + 1) * b == t * b + b;
    if q <= t {
      Mul(d * p, q + 1, t + 1);
    } else {
      Mul(d * p, t + 1, q);
    }
  }

  /** The divisors that divide every dividend rightly: those of 32 bits, and those whose dropped bits
      are all zero. For any other the cut divisor itself, as a dividend, gives 1 in place of 0. */
  lemma ExactForAll(b: U64)
    requires b > 0
    ensures (forall a: U64 :: Computed(a, b) == a / b) <==> b < W32 || Dropped(b) == 0
  {
    DroppedSmall(b);
    if b < W32 || Dropped(b) == 0 {
      forall a: U64 ensures Computed(a, b) == a / b {
        Close(a, b);
        hide Dropped, Computed;
        assert a % b < b;
        assert (a / b + 1) * 0 == 0;
      }
    } else {
      OffByOne(b);
    }
  }

  lemma OffByOne(b: U64)
    requires b >= W32 && Dropped(b) > 0
    ensures Cut(b) * Pow2(Shift(b)) < b && Cut(b) * Pow2(Shift(b)) / b == 0
    ensures Computed(Cut(b) * Pow2(Shift(b)), b) == 1
  {
    DroppedSmall(b);
    hide Pow2, Fls, IsQuotient, Cut, Computed;
    var a := Cut(b) * Pow2(Shift(b));
    assert Dropped(b) == b - a;
    hide Dropped;
    Close(a, b);
    SmallOver(a, b);
  }

  lemma SmallOver(a: nat, b: nat)
    requires a < b
    ensures a / b == 0 && a % b == a && (a / b + 1) * (b - a) == b - a
  {
  }

  /** One such pair: 2^33 - 2 divided by 2^33 - 1 gives 1. */
  lemma OffByOnePair()
    ensures Computed(0x1_ffff_fffe, 0x1_ffff_ffff) == 1 && 0x1_ffff_fffe / 0x1_ffff_ffff == 0
  {
    assert Shift(0x1_ffff_ffff) == 1;
    assert Pow2(1) == 2;
    OffByOne(0x1_ffff_ffff);
  }
}
