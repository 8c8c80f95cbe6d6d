/** `kvm_smp_call_function_mask` (`external-module-compat.c`, lines 150 to 224): the caller keeps a
    record on its stack, interrupts every target CPU, and spins on two counters in the record. One
    action is one access to the record, or the work between two; any interleaving of the caller and
    the handlers is a run. The barriers make accesses take effect in program order. */
module SmpCall {
  /** `kvm_call_data_struct`; functions and arguments are just names. */
  datatype Record = Record(func: nat, info: nat, started: nat, finished: nat, wait: bool)

  /** Where `kvm_ack_smp_call` stands on one CPU. */
  datatype Handler =
    | Quiet
    | Interrupted
    | Loaded(func: nat, info: nat, wait: bool)
    | Acked(func: nat, info: nat, wait: bool)
    | Ran(wait: bool)
    | Over

  /** Where the caller stands. `Sending(next)` has dealt with the CPUs below `next`. */
  datatype Caller = Setup | Sending(next: nat) | AwaitStarted | AwaitFinished | Returned

  /** `mask` is the mask after `cpus_and`: online CPUs other than the caller. `runs` logs what ran on
      each CPU. */
  datatype Call = Call(func: nat, info: nat, wait: bool, mask: set<nat>, caller: Caller, data: Record,
                       handlers: seq<Handler>, runs: seq<seq<(nat, nat)>>)

  datatype Actor = TheCaller | Cpu(c: nat)

  /** `cpus_weight` of the mask below `n`. */
  function Weight(mask: set<nat>, n: nat): nat {
    if n == 0 then 0 else Weight(mask, n - 1) + (if n - 1 in mask then 1 else 0)
  }

  function CallerStep(s: Call): Call {
    var cpus := Weight(s.mask, |s.handlers|);
    match s.caller
    case Setup =>
      if cpus == 0 then s.(caller := Returned)
      else s.(data := Record(s.func, s.info, 0, if s.wait then 0 else s.data.finished, s.wait), caller := Sending(0))
    case Sending(next) =>
      if next >= |s.handlers| then s.(caller := AwaitStarted)
      else s.(caller := Sending(next + 1),
              handlers := if next in s.mask then s.handlers[next := Interrupted] else s.handlers)
    case AwaitStarted =>
      if s.data.started != cpus then s else s.(caller := if s.wait then AwaitFinished else Returned)
    case AwaitFinished => if s.data.finished != cpus then s else s.(caller := Returned)
    case Returned => s
  }

  function HandlerStep(s: Call, c: nat): Call
    requires c < |s.handlers| == |s.runs|
  {
    match s.handlers[c]
    case Quiet => s
    case Interrupted => s.(handlers := s.handlers[c := Loaded(s.data.func, s.data.info, s.data.wait)])
    case Loaded(f, i, w) =>
      s.(handlers := s.handlers[c := Acked(f, i, w)], data := s.data.(started := s.data.started + 1))
    case Acked(f, i, w) => s.(handlers := s.handlers[c := Ran(w)], runs := s.runs[c := s.runs[c] + [(f, i)]])
    case Ran(w) =>
      s.(handlers := s.handlers[c := Over], data := if w then s.data.(finished := s.data.finished + 1) else s.data)
    case Over => s
  }

  function Next(s: Call, a: Actor): (r: Call)
    requires |s.handlers| == |s.runs|
    ensures |r.handlers| == |r.runs| == |s.handlers|
    ensures r.func == s.func && r.info == s.info && r.wait == s.wait && r.mask == s.mask
  {
    match a
    case TheCaller => CallerStep(s)
    case Cpu(c) => if c < |s.handlers| then HandlerStep(s, c) else s
  }

  /** The next action of CPU `c` reads or writes the caller's record. */
  predicate Touches(s: Call, c: nat) {
    c < |s.handlers| && (s.handlers[c].Interrupted? || s.handlers[c].Loaded? ||
        (s.handlers[c].Ran? && s.handlers[c].wait))
  }

  // ---------------------------------------------------------------- counting

  predicate Acknowledged(h: Handler) { h.Acked? || h.Ran? || h.Over? }

  function Started(hs: seq<Handler>, n: nat): nat
    requires n <= |hs|
  {
    if n == 0 then 0 else Started(hs, n - 1) + (if Acknowledged(hs[n - 1]) then 1 else 0)
  }

  function Finished(hs: seq<Handler>, n: nat): nat
    requires n <= |hs|
  {
    if n == 0 then 0 else Finished(hs, n - 1) + (if hs[n - 1].Over? then 1 else 0)
  }

  lemma {:induction false} CountUpdate(hs: seq<Handler>, c: nat, h: Handler, n: nat)
    requires c < |hs| && n <= |hs|
    ensures Started(hs[c := h], n)
         == Started(hs, n) + (if c < n && Acknowledged(h) then 1 else 0)
              - (if c < n && Acknowledged(hs[c]) then 1 else 0)
    ensures Finished(hs[c := h], n)
         == Finished(hs, n) + (if c < n && h.Over? then 1 else 0) - (if c < n && hs[c].Over? then 1 else 0)
  {
    if n > 0 {
      CountUpdate(hs, c, h, n - 1);
    }
  }

  /** Only targets are counted, so counts that reach the weight have reached every target. */
  lemma {:induction false} FullCount(mask: set<nat>, hs: seq<Handler>, n: nat)
    requires n <= |hs| && forall c :: 0 <= c < |hs| && hs[c] != Quiet ==> c in mask
    ensures Finished(hs, n) <= Started(hs, n) <= Weight(mask, n)
    ensures Started(hs, n) == Weight(mask, n) ==> forall c :: 0 <= c < n && c in mask ==> Acknowledged(hs[c])
    ensures Finished(hs, n) == Weight(mask, n) ==> forall c :: 0 <= c < n && c in mask ==> hs[c].Over?
  {
    if n > 0 {
      FullCount(mask, hs, n - 1);
    }
  }

  lemma {:induction false} NobodyCounted(hs: seq<Handler>, n: nat)
    requires n <= |hs| && forall c :: 0 <= c < |hs| ==> hs[c] == Quiet
    ensures Started(hs, n) == 0 && Finished(hs, n) == 0
  {
    if n > 0 {
      NobodyCounted(hs, n - 1);
    }
  }

  // ---------------------------------------------------------------- the invariant

  /** What CPU `c` has read is the caller's, and it has run the function as often as its place says. */
  ghost predicate HandlerOk(s: Call, h: Handler, runs: seq<(nat, nat)>) {
    match h
    case Quiet => runs == []
    case Interrupted => runs == []
    case Loaded(f, i, w) => f == s.func && i == s.info && w == s.wait && runs == []
    case Acked(f, i, w) => f == s.func && i == s.info && w == s.wait && runs == []
    case Ran(w) => w == s.wait && runs == [(s.func, s.info)]
    case Over => runs == [(s.func, s.info)]
  }

  ghost predicate Inv(s: Call) {
    var n := |s.handlers|;
    && |s.runs| == n
    && (forall c :: 0 <= c < n ==> HandlerOk(s, s.handlers[c], s.runs[c]) && (s.handlers[c] != Quiet ==> c in s.mask))
    && match s.caller
       case Setup => forall c :: 0 <= c < n ==> s.handlers[c] == Quiet
       case Sending(next) => DataOk(s) && (forall c :: next <= c < n ==> s.handlers[c] == Quiet)
       case AwaitStarted => DataOk(s)
       case AwaitFinished =>
         DataOk(s) && s.wait && (forall c :: 0 <= c < n && c in s.mask ==> Acknowledged(s.handlers[c]))
       case Returned =>
         forall c :: 0 <= c < n && c in s.mask ==> Acknowledged(s.handlers[c]) && (s.wait ==> s.handlers[c].Over?)
  }

  ghost predicate DataOk(s: Call) {
    && s.data.func == s.func && s.data.info == s.info && s.data.wait == s.wait
    && s.data.started == Started(s.handlers, |s.handlers|)
    && (s.wait ==> s.data.finished == Finished(s.handlers, |s.handlers|))
  }

  lemma NextKeeps(s: Call, a: Actor)
    requires Inv(s)
    ensures Inv(Next(s, a))
  {
    match a {
      case TheCaller => CallerKeeps(s);
      case Cpu(c) =>
        if c < |s.handlers| {
          HandlerKeeps(s, c);
        }
    }
  }

  lemma CallerKeeps(s: Call)
    requires Inv(s)
    ensures Inv(CallerStep(s))
  {
    var n := |s.handlers|;
    FullCount(s.mask, s.handlers, n);
    if s.caller.Setup? {
      NobodyCounted(s.handlers, n);
      NoTargets(s.mask, n);
    } else if s.caller.Sending? && s.caller.next < n {
      CountUpdate(s.handlers, s.caller.next, Interrupted, n);
    }
  }

  lemma HandlerKeeps(s: Call, c: nat)
    requires Inv(s) && c < |s.handlers|
    ensures Inv(HandlerStep(s, c))
  {
    hide Weight, Started, Finished;
    var r := HandlerStep(s, c);
    var n := |s.handlers|;
    CountUpdate(s.handlers, c, r.handlers[c], n);
    assert HandlerOk(s, s.handlers[c], s.runs[c]);
    if s.handlers[c] != Quiet {
      assert HandlerOk(r, r.handlers[c], r.runs[c]);
    }
    forall d | 0 <= d < n && d != c
      ensures HandlerOk(r, r.handlers[d], r.runs[d]) && r.handlers[d] == s.handlers[d]
    {
      assert HandlerOk(s, s.handlers[d], s.runs[d]);
    }
  }

  lemma {:induction false} NoTargets(mask: set<nat>, n: nat)
    ensures Weight(mask, n) == 0 ==> forall c :: 0 <= c < n ==> c !in mask
  {
    if n > 0 {
      NoTargets(mask, n - 1);
    }
  }

  function Run(s: Call, actors: seq<Actor>): (r: Call)
    requires |s.handlers| == |s.runs|
    ensures |r.handlers| == |r.runs| == |s.handlers|
    ensures r.func == s.func && r.info == s.info && r.wait == s.wait && r.mask == s.mask
    decreases |actors|
  {
    if actors == [] then s else Run(Next(s, actors[0]), actors[1..])
  }

  lemma {:induction false} RunKeeps(s: Call, actors: seq<Actor>)
    requires Inv(s)
    ensures Inv(Run(s, actors))
    decreases |actors|
  {
    if actors != [] {
      NextKeeps(s, actors[0]);
      RunKeeps(Next(s, actors[0]), actors[1..]);
    }
  }

  ghost predicate Initial(s: Call) {
    && s.caller == Setup && |s.runs| == |s.handlers|
    && (forall c :: 0 <= c < |s.handlers| ==> s.handlers[c] == Quiet && s.runs[c] == [])
  }

  /** In no interleaving does a handler touch the record once the caller has returned. */
  lemma RecordOutlivesHandlers(s: Call, actors: seq<Actor>, c: nat)
    requires Initial(s) && Run(s, actors).caller == Returned
    ensures !Touches(Run(s, actors), c)
  {
    RunKeeps(s, actors);
  }

  /** In every interleaving, when the caller returns, each target has acknowledged the call and has run
      the caller's function with the caller's argument, or runs it next; it has run it already if `wait`
      was set, and never runs anything twice. No other CPU runs anything. */
  lemma EveryTargetOnce(s: Call, actors: seq<Actor>, more: seq<Actor>, c: nat)
    requires Initial(s) && Run(s, actors).caller == Returned && c < |s.handlers|
    ensures var r := Run(s, actors);
            && (c in s.mask ==> Acknowledged(r.handlers[c]))
            && (c in s.mask && r.runs[c] != [(s.func, s.info)] ==> Next(r, Cpu(c)).runs[c] == [(s.func, s.info)])
            && (c in s.mask && s.wait ==> r.runs[c] == [(s.func, s.info)])
            && (c !in s.mask ==> r.runs[c] == [])
    ensures var r := Run(Run(s, actors), more);
            && (r.handlers[c].Over? ==> r.runs[c] == [(s.func, s.info)]) && |r.runs[c]| <= 1
  {
    RunKeeps(s, actors);
    RunKeeps(Run(s, actors), more);
  }

  // ---------------------------------------------------------------- every target is interrupted, and it ends

  /** The targets dealt with so far have been interrupted. */
  ghost predicate Sent(s: Call) {
    var done := match s.caller case Setup => 0 case Sending(next) => next case _ => |s.handlers|;
    forall c :: 0 <= c < done && c < |s.handlers| && c in s.mask ==> s.handlers[c] != Quiet
  }

  lemma NextSends(s: Call, a: Actor)
    requires Inv(s) && Sent(s)
    ensures Sent(Next(s, a))
  {
    NoTargets(s.mask, |s.handlers|);
  }

  lemma {:induction false} RunSends(s: Call, actors: seq<Actor>)
    requires Inv(s) && Sent(s)
    ensures Inv(Run(s, actors)) && Sent(Run(s, actors))
    decreases |actors|
  {
    if actors != [] {
      NextKeeps(s, actors[0]);
      NextSends(s, actors[0]);
      RunSends(Next(s, actors[0]), actors[1..]);
    }
  }

  /** In every run, once the caller has gone through the CPUs, every target has been interrupted. */
  lemma AllInterrupted(s: Call, actors: seq<Actor>, c: nat)
    requires Initial(s) && c < |s.handlers| && c in s.mask
    requires var r := Run(s, actors); r.caller.AwaitStarted? || r.caller.AwaitFinished? || r.caller.Returned?
    ensures Run(s, actors).handlers[c] != Quiet
  {
    RunSends(s, actors);
  }

  /** The steps a handler has left, and the caller. A target not yet interrupted counts in full. */
  function Left(h: Handler): nat {
    match h
    case Quiet => 5
    case Interrupted => 4
    case Loaded(_, _, _) => 3
    case Acked(_, _, _) => 2
    case Ran(_) => 1
    case Over => 0
  }

  function HandlersLeft(hs: seq<Handler>, n: nat): nat
    requires n <= |hs|
  {
    if n == 0 then 0 else HandlersLeft(hs, n - 1) + Left(hs[n - 1])
  }

  function CallerLeft(s: Call): nat {
    match s.caller
    case Setup => |s.handlers| + 4
    case Sending(next) => if next <= |s.handlers| then |s.handlers| - next + 3 else 3
    case AwaitStarted => 2
    case AwaitFinished => 1
    case Returned => 0
  }

  function StepsLeft(s: Call): nat {
    CallerLeft(s) + HandlersLeft(s.handlers, |s.handlers|)
  }

  lemma {:induction false} LeftUpdate(hs: seq<Handler>, c: nat, h: Handler, n: nat)
    requires c < |hs| && n <= |hs|
    ensures HandlersLeft(hs[c := h], n) == HandlersLeft(hs, n) + (if c < n then Left(h) - Left(hs[c]) else 0)
  {
    if n > 0 {
      LeftUpdate(hs, c, h, n - 1);
    }
  }

  /** Every step that does something is one fewer: no run goes on for ever. */
  lemma StepCounts(s: Call, a: Actor)
    requires Inv(s) && Next(s, a) != s
    ensures StepsLeft(Next(s, a)) < StepsLeft(s)
  {
    var n := |s.handlers|;
    match a {
      case TheCaller =>
        if s.caller.Sending? && s.caller.next < n && s.caller.next in s.mask {
          LeftUpdate(s.handlers, s.caller.next, Interrupted, n);
        }
      case Cpu(c) =>
        LeftUpdate(s.handlers, c, HandlerStep(s, c).handlers[c], n);
    }
  }

  /** Until the caller has returned, it or some target can take a step. */
  lemma SomeoneMoves(s: Call) returns (a: Actor)
    requires Inv(s) && Sent(s) && s.caller != Returned
    ensures Next(s, a) != s
  {
    a := TheCaller;
    if Next(s, a) == s {
      if c: nat :| c < |s.handlers| && c in s.mask && s.handlers[c] != Over {
        a := Cpu(c);
      } else {
        AllOver(s.mask, s.handlers, |s.handlers|);
      }
    }
  }

  /** A run in which every step does something. */
  ghost predicate Busy(s: Call, actors: seq<Actor>)
    requires |s.handlers| == |s.runs|
    decreases |actors|
  {
    actors != [] ==> Next(s, actors[0]) != s && Busy(Next(s, actors[0]), actors[1..])
  }

  lemma {:induction false} BusyIsShort(s: Call, actors: seq<Actor>)
    requires Inv(s) && Busy(s, actors)
    ensures |actors| + StepsLeft(Run(s, actors)) <= StepsLeft(s)
    decreases |actors|
  {
    if actors != [] {
      NextKeeps(s, actors[0]);
      StepCounts(s, actors[0]);
      BusyIsShort(Next(s, actors[0]), actors[1..]);
    }
  }

  /** From every state a run reaches, however the CPUs then take turns: only finitely many steps do anything,
      and when no CPU can do any more the caller has returned and every target has run the function once. */
  lemma LoopsEnd(s: Call, actors: seq<Actor>, more: seq<Actor>)
    requires Initial(s) && Busy(Run(s, actors), more)
    ensures |more| <= StepsLeft(Run(s, actors))
    ensures var r := Run(Run(s, actors), more);
            (forall a :: Next(r, a) == r) ==>
              r.caller == Returned
              && forall c :: 0 <= c < |s.handlers| && c in s.mask ==> r.runs[c] == [(s.func, s.info)]
  {
    RunSends(s, actors);
    BusyIsShort(Run(s, actors), more);
    RunSends(Run(s, actors), more);
    var r := Run(Run(s, actors), more);
    if forall a :: Next(r, a) == r {
      if r.caller != Returned {
        var a := SomeoneMoves(r);
      }
      forall c | 0 <= c < |s.handlers| && c in s.mask
        ensures r.runs[c] == [(s.func, s.info)]
      {
        assert Next(r, Cpu(c)) == r;
        assert HandlerOk(r, r.handlers[c], r.runs[c]);
      }
    }
  }

  /** And some such turns do end it: the caller is never stuck. */
  lemma CallerReturns(s: Call, actors: seq<Actor>) returns (more: seq<Actor>)
    requires Initial(s)
    ensures Run(Run(s, actors), more).caller == Returned
  {
    RunSends(s, actors);
    more := Returning(Run(s, actors));
  }

  lemma {:induction false} Returning(s: Call) returns (more: seq<Actor>)
    requires Inv(s) && Sent(s)
    ensures Run(s, more).caller == Returned
    decreases StepsLeft(s)
  {
    if s.caller == Returned {
      more := [];
    } else {
      var a := SomeoneMoves(s);
      StepCounts(s, a);
      NextKeeps(s, a);
      NextSends(s, a);
      var rest := Returning(Next(s, a));
      more := [a] + rest;
      assert more[1..] == rest;
    }
  }

  lemma {:induction false} AllOver(mask: set<nat>, hs: seq<Handler>, n: nat)
    requires n <= |hs| && forall c :: 0 <= c < |hs| ==> if c in mask then hs[c].Over? else hs[c] == Quiet
    ensures Started(hs, n) == Weight(mask, n) == Finished(hs, n)
  {
    if n > 0 {
      AllOver(mask, hs, n - 1);
    }
  }
}
