/** Pending interrupts as two levels of bitmap (`kvm_main.c`, lines 1951 to 1955, 2400, 2499 to 2525,
    3064 to 3065), against the set of vectors they stand for. */
module IrqQueue {

  const BITS: nat := 64
  const WORDS: nat := 4

  type Vector = v: nat | v < 256

  /** A word is the set of its one bits. */
  type Word = w: set<nat> | forall b :: b in w ==> b < BITS witness {}

  /** `__ffs`: the lowest set bit. */
  method FirstSet(w: Word) returns (bit: nat)
    requires w != {}
    ensures bit in w && forall b :: b in w ==> bit <= b
  {
    ghost var some :| some in w;
    bit := 0;
    while bit !in w
      invariant bit <= some && forall b :: b in w ==> bit <= b
      decreases some - bit
    {
      bit := bit + 1;
    }
  }

  class Queue {
    var summary: Word
    var pending: seq<Word>

    /** The summary bit of a word is set iff the word is not zero. */
    ghost predicate Valid() reads this {
      |pending| == WORDS && summary == set i | 0 <= i < WORDS && pending[i] != {}
    }

    ghost predicate Has(v: nat)
      requires Valid()
      reads this
    {
      v < 256 && v % BITS in pending[v / BITS]
    }

    ghost function Vectors(): (r: set<nat>)
      requires Valid()
      reads this
      ensures forall v :: v in r <==> 0 <= v && Has(v)
    {
      set v: nat | v < 256 && Has(v)
    }

    constructor ()
      ensures Valid() && Vectors() == {}
    {
      summary, pending := {}, [{}, {}, {}, {}];
    }

    /** An interrupt from user space, or one whose delivery a VM exit cut short. */
    method Enqueue(irq: Vector)
      requires Valid()
      modifies this
      ensures Valid() && Vectors() == old(Vectors()) + {irq}
    {
      var w := irq / BITS;
      ghost var was := pending;
      pending := pending[w := pending[w] + {irq % BITS}];
      summary := summary + {w};
      forall v: nat | v < 256 ensures v % BITS in pending[v / BITS] <==> v % BITS in was[v / BITS] || v == irq {
        assert v == v / BITS * BITS + v % BITS && irq == w * BITS + irq % BITS;
      }
    }

    /** The summary alone tells whether anything is pending. */
    lemma SummaryTells()
      requires Valid()
      ensures summary != {} <==> Vectors() != {}
    {
      if summary != {} {
        var w :| w in summary;
        var b :| b in pending[w];
        assert Has(w * BITS + b) by { Split(w, b); }
      }
      if Vectors() != {} {
        var v :| v in Vectors();
        assert v / BITS in summary;
      }
    }

    static lemma Split(w: nat, b: nat)
      requires w < WORDS && b < BITS
      ensures (w * BITS + b) / BITS == w && (w * BITS + b) % BITS == b && w * BITS + b < 256
    {
    }

    /** `kvm_do_inject_irq`, called when the summary is not zero: takes out the smallest vector. */
    method Inject() returns (irq: Vector)
      requires Valid() && summary != {}
      modifies this
      ensures Valid() && irq in old(Vectors()) && Vectors() == old(Vectors()) - {irq}
      ensures forall v :: v in old(Vectors()) ==> irq <= v
    {
      var w := FirstSet(summary);
      var b := FirstSet(pending[w]);
      Split(w, b);
      irq := w * BITS + b;
      ghost var was := pending;
      forall v: nat | v in old(Vectors()) ensures irq <= v {
        assert v == v / BITS * BITS + v % BITS && v % BITS in pending[v / BITS];
        assert v / BITS in summary && w <= v / BITS;
        assert v / BITS == w ==> b <= v % BITS;
      }
      pending := pending[w := pending[w] - {b}];
      if pending[w] == {} { summary := summary - {w}; }
      forall v: nat | v < 256 ensures v % BITS in pending[v / BITS] <==> v % BITS in was[v / BITS] && v != irq {
        assert v == v / BITS * BITS + v % BITS;
      }
    }
  }
}
