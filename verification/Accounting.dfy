/** Budgets and counters of the dispatcher over runs and whole histories. */
module Accounting {
  import opened Words
  import opened Arm
  import opened Lift
  import opened Dispatch
  import opened Transparency

  // ----- conservation of counts --------------------------------------------------------

  /** Blocks an event executes. */
  function Ran(e: Event, s: Session): seq<u64> {
    if e.Execute? then RunSpec(s.blocks, s.machine, e.max).trace else []
  }

  /** Hits that a recompilation forgets: those of the entry it replaces. */
  function Forgotten(e: Event, s: Session, decode: Decoder): nat
    requires EventLawful(e, decode)
  {
    if e.Compile? && e.mapped && Translate(e.at, e.words, decode).Ok? && e.at in s.blocks then s.blocks[e.at].hitCount else 0
  }

  function TotalRan(events: seq<Event>, s: Session, decode: Decoder): nat
    requires AllLawful(events, decode)
  {
    if events == [] then 0
    else
      assert events[0] in events;
      |Ran(events[0], s)| + TotalRan(events[1..], Apply(events[0], s, decode), decode)
  }

  function TotalForgotten(events: seq<Event>, s: Session, decode: Decoder): nat
    requires AllLawful(events, decode)
  {
    if events == [] then 0
    else
      assert events[0] in events;
      Forgotten(events[0], s, decode) + TotalForgotten(events[1..], Apply(events[0], s, decode), decode)
  }

  /** No entry's count reaches its maximum in any run of the history. */
  predicate NeverSaturates(events: seq<Event>, s: Session, decode: Decoder)
    requires AllLawful(events, decode)
  {
    events == [] ||
    (assert events[0] in events;
     Unsaturated(s.blocks, Ran(events[0], s)) && NeverSaturates(events[1..], Apply(events[0], s, decode), decode))
  }

  /** Recorded and forgotten hits grow by at most the blocks executed, and by exactly that
      number if and only if no entry saturates. */
  lemma ApplyConserves(e: Event, s: Session, decode: Decoder)
    requires EventLawful(e, decode)
    ensures var s' := Apply(e, s, decode);
            && SumHits(s'.blocks) + Forgotten(e, s, decode) <= SumHits(s.blocks) + |Ran(e, s)|
            && (SumHits(s'.blocks) + Forgotten(e, s, decode) == SumHits(s.blocks) + |Ran(e, s)|
                <==> Unsaturated(s.blocks, Ran(e, s)))
            && s'.executed == (s.executed + |Ran(e, s)|) % P64
  {
    hide SumHits, RunSpec, Translate, Window, BumpAll, LiveCount, SumLive, Unsaturated, Completed;
    match e
    case Compile(at, words, mapped) =>
      NothingSaturates(s.blocks);
      if Translate(at, words, decode).Ok? && mapped {
        SumInsert(s.blocks, at, CompiledBlock(Translate(at, words, decode).value, 0));
        if at in s.blocks {
          SumRemove(s.blocks, at);
        } else {
          assert s.blocks - {at} == s.blocks;
        }
      }
    case Execute(max) =>
      TraceCached(s.blocks, s.machine, max);
      HitsBalance(s.blocks, RunSpec(s.blocks, s.machine, max).trace);
  }

  lemma NothingSaturates(blocks: map<u64, CompiledBlock>)
    ensures Unsaturated(blocks, [])
  {
  }

  /** Over every history, hits still recorded and hits forgotten by recompilation are at most
      the blocks executed, and are together exactly those if and only if no entry saturates;
      the execution counter is that number modulo 2^64. */
  lemma {:induction false} HistoryConserves(events: seq<Event>, s: Session, decode: Decoder)
    requires AllLawful(events, decode)
    ensures var end, ran := Replay(events, s, decode), TotalRan(events, s, decode);
            var hits := SumHits(end.blocks) + TotalForgotten(events, s, decode);
            && hits <= SumHits(s.blocks) + ran
            && (hits == SumHits(s.blocks) + ran <==> NeverSaturates(events, s, decode))
            && end.executed == (s.executed + ran) % P64
    decreases |events|
  {
    hide SumHits, Apply, Ran, Forgotten, EventLawful, Unsaturated;
    if events != [] {
      assert events[0] in events;
      ApplyConserves(events[0], s, decode);
      HistoryConserves(events[1..], Apply(events[0], s, decode), decode);
      WrapTwice(s.executed, |Ran(events[0], s)|, TotalRan(events[1..], Apply(events[0], s, decode), decode));
    }
  }

  lemma WrapTwice(n: nat, a: nat, b: nat)
    ensures ((n + a) % P64 + b) % P64 == (n + (a + b)) % P64
  {
    ModAddMultiple((n + a) % P64 + b, (n + a) / P64, P64);
  }

  // ----- budgets ---------------------------------------------------------------------

  /** Exits happen only at uncached addresses after at least one block; a missing block is
      reported only before anything ran; running out means that exactly `max` blocks ran. */
  lemma {:induction false} RunAccounting(blocks: map<u64, CompiledBlock>, m: Machine, max: nat)
    ensures var r := RunSpec(blocks, m, max);
            && |r.trace| <= max
            && (r.outcome.Exited? ==> r.outcome.pc == r.machine.regs.pc && r.outcome.pc !in blocks && |r.trace| >= 1)
            && (r.outcome.NoBlock? ==> r.trace == [] && r.machine == m && m.regs.pc !in blocks)
            && (r.outcome == BudgetExhausted ==> |r.trace| == max && (max > 0 ==> r.machine.regs.pc in blocks))
            && (r.outcome == GuestCrash ==> |r.trace| >= 1)
    decreases max
  {
    hide CodeFlow;
    var pc := m.regs.pc;
    if max > 0 && pc in blocks {
      match CodeFlow(blocks[pc].code, m)
      case Goto(m') => RunAccounting(blocks, m', max - 1);
      case _ =>
    }
  }

  /** Budgets of runs add up. */
  lemma {:induction false} RunSpecResumes(blocks: map<u64, CompiledBlock>, m: Machine, a: nat, b: nat)
    requires RunSpec(blocks, m, a).outcome == BudgetExhausted
    ensures RunSpec(blocks, m, a + b) ==
            Appended(RunSpec(blocks, m, a).trace, RunSpec(blocks, RunSpec(blocks, m, a).machine, b))
    decreases a
  {
    hide CodeFlow;
    var pc := m.regs.pc;
    if a == 0 {
      AppendedEmpty(RunSpec(blocks, m, b));
    } else {
      var m' := CodeFlow(blocks[pc].code, m).jump;
      RunSpecResumes(blocks, m', a - 1, b);
      var first := RunSpec(blocks, m', a - 1);
      PrefixedAppended(pc, first.trace, RunSpec(blocks, first.machine, b));
    }
  }

  /** An exhausted run can be resumed: running on, on the cache as the first run left it,
      has the outcome, cache, hit counts, counters and guest of one run with both budgets. */
  lemma RunResumes(s: Session, a: nat, b: nat, decode: Decoder)
    requires RunSpec(s.blocks, s.machine, a).outcome == BudgetExhausted
    ensures var first := Apply(Execute(a), s, decode);
            && Apply(Execute(b), first, decode) == Apply(Execute(a + b), s, decode)
            && RunSpec(first.blocks, first.machine, b).outcome == RunSpec(s.blocks, s.machine, a + b).outcome
  {
    hide RunSpec, BumpAll, SumLive, Completed;
    var r1 := RunSpec(s.blocks, s.machine, a);
    var r2 := RunSpec(s.blocks, r1.machine, b);
    RunSpecResumes(s.blocks, s.machine, a, b);
    BumpAllKeeps(s.blocks, r1.trace);
    RunIgnoresHits(s.blocks, BumpAll(s.blocks, r1.trace), r1.machine, b);
    BumpAllConcat(s.blocks, r1.trace, r2.trace);
    RunAccounting(s.blocks, r1.machine, b);
    CompletedAppended(r1, r2);
    SumLiveConcat(s.live, Completed(r1), Completed(r2));
    WrapTwice(s.executed, |r1.trace|, |r2.trace|);
  }

  lemma CompletedAppended(r1: RunState, r2: RunState)
    requires r1.outcome == BudgetExhausted && (r2.outcome == GuestCrash ==> r2.trace != [])
    ensures Completed(Appended(r1.trace, r2)) == Completed(r1) + Completed(r2)
  {
  }

  lemma AppendedEmpty(r: RunState)
    ensures Appended([], r) == r
  {
    assert [] + r.trace == r.trace;
  }

  lemma PrefixedAppended(pc: u64, trace: seq<u64>, r: RunState)
    ensures Prefixed(pc, Appended(trace, r)) == Appended([pc] + trace, r)
  {
    assert [pc] + (trace + r.trace) == ([pc] + trace) + r.trace;
  }

  /** With a budget of one, the block runs but the run reports exhaustion whenever the next
      block is cached already. */
  lemma RunOfOne(blocks: map<u64, CompiledBlock>, m: Machine)
    requires m.regs.pc in blocks && CodeFlow(blocks[m.regs.pc].code, m).Goto?
    ensures var m' := CodeFlow(blocks[m.regs.pc].code, m).jump;
            var r := RunSpec(blocks, m, 1);
            && r.machine == m' && r.trace == [m.regs.pc]
            && r.outcome == if m'.regs.pc in blocks then BudgetExhausted else Exited(m'.regs.pc)
  {
    hide CodeFlow;
    var m' := CodeFlow(blocks[m.regs.pc].code, m).jump;
    assert RunSpec(blocks, m', 0) == RunState(BudgetExhausted, m', []);
  }
}
