/** The dispatcher: a cache of translated blocks, filled by `CompileBlock` and run
    by `Run` (src/runtime/dispatch.rs). */
module Dispatch {
  import opened Words
  import opened Ir
  import opened Arm
  import opened X86
  import opened Codegen
  import opened CodegenProof
  import BlockProof
  import opened Optimizer
  import opened OptimizerProof
  import Pipeline
  import opened Lift
  import opened LiftProof
  import opened Runtime

  datatype CompiledBlock = CompiledBlock(code: seq<u8>, hitCount: u32)

  datatype CompileError = UnsupportedInstruction(at: u64) | CodegenFailed(error: CodegenError) | MappingFailed

  datatype RunOutcome = Exited(pc: u64) | NoBlock(missing: u64) | BudgetExhausted | GuestCrash

  // ----- translation -----------------------------------------------------------------

  predicate AnyUnsupported(insts: seq<IRInst>) {
    exists i :: 0 <= i < |insts| && insts[i].opcode == Unsupported
  }

  function Window(words: seq<bv32>, guestPc: u64, decode: Decoder): seq<IRInst> {
    LiftAll(words[..Consumed(words, decode)], guestPc, decode)
  }

  /** The machine code of the block at the head of `words`. */
  function Translate(guestPc: u64, words: seq<bv32>, decode: Decoder): Result<seq<u8>, CompileError>
    requires AllInRange(Window(words, guestPc, decode))
  {
    var insts := Window(words, guestPc, decode);
    if AnyUnsupported(insts) then Err(UnsupportedInstruction(guestPc))
    else
      match LowerBlock(guestPc, Optimized(insts, NoConsts()), ByteSpan(|insts|))
      case Err(e) => Err(CodegenFailed(e))
      case Ok(code) => Ok(EncAll(code))
  }

  lemma WindowWellFormed(words: seq<bv32>, guestPc: u64, decode: Decoder)
    requires DecoderSane(decode)
    ensures AllWellFormed(Window(words, guestPc, decode)) && AllInRange(Window(words, guestPc, decode))
    ensures AllShiftsConsistent(Window(words, guestPc, decode))
  {
    hide AllWellFormed, AllShiftsConsistent, DecoderSane, AllInRange;
    LiftAllWellFormed(words[..Consumed(words, decode)], guestPc, decode);
    Pipeline.WellFormedInRange(Window(words, guestPc, decode));
  }

  // ----- running ---------------------------------------------------------------------

  /** What calling `code` does to a machine, starting from cleared scratch registers. */
  function CodeFlow(code: seq<u8>, m: Machine): Flow {
    Observe(Exec(code, 0, Cpu(0, 0, 0, 0, NO_FLAGS, m.regs, m.mem), |code|))
  }

  /** The effect does not depend on the scratch registers and flags at entry. */
  ghost predicate ScratchFree(code: seq<u8>) {
    forall s: Cpu :: Observe(Exec(code, 0, s, |code|)) == CodeFlow(code, View(s))
  }

  datatype RunState = RunState(outcome: RunOutcome, machine: Machine, trace: seq<u64>)

  /** Up to `max` blocks from the cache, with the keys of the blocks that ran. */
  function RunSpec(blocks: map<u64, CompiledBlock>, m: Machine, max: nat): (r: RunState)
    decreases max
  {
    var pc := m.regs.pc;
    if max == 0 then RunState(BudgetExhausted, m, [])
    else if pc !in blocks then RunState(NoBlock(pc), m, [])
    else
      match CodeFlow(blocks[pc].code, m)
      case Goto(m') =>
        if m'.regs.pc !in blocks then RunState(Exited(m'.regs.pc), m', [pc])
        else Prefixed(pc, RunSpec(blocks, m', max - 1))
      case _ => RunState(GuestCrash, m, [pc])
  }

  function Prefixed(pc: u64, r: RunState): RunState {
    r.(trace := [pc] + r.trace)
  }

  /** One execution of the block at `pc`, counted with saturation. */
  function Bump(blocks: map<u64, CompiledBlock>, pc: u64): map<u64, CompiledBlock>
    requires pc in blocks
  {
    blocks[pc := blocks[pc].(hitCount := if blocks[pc].hitCount + 1 < P32 then blocks[pc].hitCount + 1 else P32 - 1)]
  }

  function BumpAll(blocks: map<u64, CompiledBlock>, trace: seq<u64>): map<u64, CompiledBlock> {
    if trace == [] then blocks
    else if trace[0] in blocks then BumpAll(Bump(blocks, trace[0]), trace[1..])
    else BumpAll(blocks, trace[1..])
  }

  /** Runs look at code only, so counting hits changes nothing. */
  predicate SameCode(a: map<u64, CompiledBlock>, b: map<u64, CompiledBlock>) {
    a.Keys == b.Keys && forall pc :: pc in a ==> a[pc].code == b[pc].code
  }

  ghost function SumHits(blocks: map<u64, CompiledBlock>): nat {
    if blocks == map[] then 0
    else
      var k :| k in blocks;
      blocks[k].hitCount + SumHits(blocks - {k})
  }

  lemma {:induction false} SumRemove(blocks: map<u64, CompiledBlock>, k: u64)
    requires k in blocks
    ensures SumHits(blocks) == blocks[k].hitCount + SumHits(blocks - {k})
    decreases |blocks|
  {
    var j :| j in blocks && SumHits(blocks) == blocks[j].hitCount + SumHits(blocks - {j});
    if j != k {
      var bj, bk := blocks - {j}, blocks - {k};
      SumRemove(bj, k);
      SumRemove(bk, j);
      assert bj - {k} == bk - {j};
    }
  }

  lemma SumInsert(blocks: map<u64, CompiledBlock>, k: u64, e: CompiledBlock)
    ensures SumHits(blocks[k := e]) == SumHits(blocks - {k}) + e.hitCount
  {
    SumRemove(blocks[k := e], k);
    assert blocks[k := e] - {k} == blocks - {k};
  }

  /** Every key of a run's trace is cached. */
  lemma {:induction false} TraceCached(blocks: map<u64, CompiledBlock>, m: Machine, max: nat)
    ensures forall pc :: pc in RunSpec(blocks, m, max).trace ==> pc in blocks
    decreases max
  {
    hide CodeFlow;
    var pc := m.regs.pc;
    if max > 0 && pc in blocks {
      match CodeFlow(blocks[pc].code, m)
      case Goto(m') => TraceCached(blocks, m', max - 1);
      case _ =>
    }
  }

  lemma {:induction false} BumpAllSnoc(blocks: map<u64, CompiledBlock>, trace: seq<u64>, pc: u64)
    requires pc in blocks && forall p :: p in trace ==> p in blocks
    ensures BumpAll(blocks, trace).Keys == blocks.Keys && SameCode(blocks, BumpAll(blocks, trace))
    ensures BumpAll(blocks, trace + [pc]) == Bump(BumpAll(blocks, trace), pc)
    decreases |trace|
  {
    hide Bump;
    if trace == [] {
      assert trace + [pc] == [pc] && [pc][1..] == [];
    } else {
      assert (trace + [pc])[1..] == trace[1..] + [pc];
      BumpKeeps(blocks, trace[0]);
      BumpAllSnoc(Bump(blocks, trace[0]), trace[1..], pc);
    }
  }

  lemma BumpKeeps(blocks: map<u64, CompiledBlock>, pc: u64)
    requires pc in blocks
    ensures Bump(blocks, pc).Keys == blocks.Keys && SameCode(blocks, Bump(blocks, pc))
  {
  }

  function Appended(trace: seq<u64>, r: RunState): RunState {
    r.(trace := trace + r.trace)
  }

  lemma AppendedStep(trace: seq<u64>, pc: u64, r: RunState)
    ensures Appended(trace, Prefixed(pc, r)) == Appended(trace + [pc], r)
  {
    assert trace + ([pc] + r.trace) == (trace + [pc]) + r.trace;
  }

  // ----- the class -------------------------------------------------------------------

  class Dispatcher {
    var blocks: map<u64, CompiledBlock>
    var blocksExecuted: u64

    ghost predicate Valid()
      reads this
    {
      forall pc :: pc in blocks ==> ScratchFree(blocks[pc].code)
    }

    /** No execution has been lost or counted twice. */
    ghost predicate Balanced()
      reads this
    {
      SumHits(blocks) == blocksExecuted
    }

    constructor ()
      ensures Valid() && Balanced() && blocks == map[] && blocksExecuted == 0
    {
      blocks, blocksExecuted := map[], 0;
    }

    method HasBlock(pc: u64) returns (b: bool)
      ensures b == (pc in blocks)
    {
      b := pc in blocks;
    }

    method HitCount(pc: u64) returns (n: u32)
      ensures n == if pc in blocks then blocks[pc].hitCount else 0
    {
      n := if pc in blocks then blocks[pc].hitCount else 0;
    }

    /** Translates the block at the head of `words` and caches it under `guestPc`,
        replacing any earlier translation.  `mapped` says whether the host could
        map executable memory. */
    method CompileBlock(guestPc: u64, words: seq<bv32>, decode: Decoder, mapped: bool)
      returns (r: Result<nat, CompileError>)
      requires DecoderSane(decode) && 4 * |words| < P64
      modifies this`blocks
      ensures AllInRange(Window(words, guestPc, decode))
      ensures r == match Translate(guestPc, words, decode)
                   case Err(e) => Err(e)
                   case Ok(_) => if mapped then Ok(Consumed(words, decode)) else Err(MappingFailed)
      ensures blocks == if r.Ok? then old(blocks)[guestPc := CompiledBlock(Translate(guestPc, words, decode).value, 0)]
                        else old(blocks)
      ensures old(Valid()) ==> Valid()
      ensures old(Balanced()) && guestPc !in old(blocks) ==> Balanced()
    {
      hide Lower, LowerBlock, Optimized, LiftAll, EncAll, AllWellFormed, AllInRange, AllShiftsConsistent, DecoderSane, ScratchFree, FlagsAllowed, SumHits;
      WindowWellFormed(words, guestPc, decode);
      ghost var lifted := Window(words, guestPc, decode);
      var block := new Block.At(guestPc);
      var consumed := LiftBlockAt(words, guestPc, block, decode);
      assert block.insts == lifted by { assert [] + lifted == lifted; }
      for i := 0 to |block.insts|
        invariant forall j :: 0 <= j < i ==> block.insts[j].opcode != Unsupported
      {
        if block.insts[i].opcode == Unsupported {
          return Err(UnsupportedInstruction(guestPc));
        }
      }
      Pipeline.PrepareBlock(block);
      OptimizedWellFormed(lifted, NoConsts());
      WellFormedFlags(block.insts);
      var buffer := new CodeBuffer();
      var emitted := buffer.EmitBlock(block);
      if emitted.Err? {
        return Err(CodegenFailed(emitted.error));
      }
      assert buffer.code == LowerBlock(guestPc, Optimized(lifted, NoConsts()), ByteSpan(|lifted|)).value by {
        assert [] + buffer.code == buffer.code;
      }
      if !mapped {
        return Err(MappingFailed);
      }
      TranslationScratchFree(guestPc, words, decode);
      SumInsert(blocks, guestPc, CompiledBlock(buffer.bytes, 0));
      if guestPc !in blocks {
        assert blocks - {guestPc} == blocks;
      }
      blocks := blocks[guestPc := CompiledBlock(buffer.bytes, 0)];
      return Ok(consumed);
    }

    /** Runs cached blocks from the guest's pc until an uncached address or the budget. */
    method Run(state: GuestState, memory: GuestMemory, maxBlocks: nat) returns (r: RunOutcome, ghost trace: seq<u64>)
      requires Valid() && state.Valid()
      modifies this, state, state.gpr, memory
      ensures var spec := RunSpec(old(blocks), old(Snapshot(state, memory)), maxBlocks);
              r == spec.outcome && trace == spec.trace && Snapshot(state, memory) == spec.machine
      ensures blocks == BumpAll(old(blocks), trace)
      ensures blocksExecuted == (old(blocksExecuted) + |trace|) % P64
      ensures Valid()
      ensures old(Balanced()) && Unsaturated(old(blocks), trace) && old(blocksExecuted) + |trace| < P64 ==> Balanced()
    {
      hide RunSpec, CodeFlow, ScratchFree, Bump, BumpAll, Progress, Snapshot, Unsaturated, SumHits;
      ghost var cache, m0, n0 := blocks, Snapshot(state, memory), blocksExecuted;
      RunBalances(cache, m0, maxBlocks, n0);
      trace := [];
      ProgressStart(cache, m0, maxBlocks);
      for i := 0 to maxBlocks
        invariant Valid() && |trace| == i && blocksExecuted == (n0 + i) % P64
        invariant Progress(cache, blocks, m0, Snapshot(state, memory), maxBlocks, trace)
      {
        ghost var m, before, done := Snapshot(state, memory), blocks, trace;
        ProgressStep(cache, before, m0, m, maxBlocks, done);
        CountOne(n0 + i);
        var stop := RunNext(state, memory);
        if m.regs.pc in before {
          trace := trace + [m.regs.pc];
        }
        if stop.Some? {
          r := stop.value;
          return;
        }
      }
      ProgressEnd(cache, blocks, m0, Snapshot(state, memory), maxBlocks, trace);
      r := BudgetExhausted;
    }

    /** One pass of the loop: `None` means that the next block is cached too. */
    method RunNext(state: GuestState, memory: GuestMemory) returns (stop: Option<RunOutcome>)
      requires Valid() && state.Valid()
      modifies this, state, state.gpr, memory
      ensures Valid()
      ensures var m := old(Snapshot(state, memory));
              var pc := m.regs.pc;
              if pc !in old(blocks) then
                stop == Some(NoBlock(pc)) && blocks == old(blocks)
                && blocksExecuted == old(blocksExecuted) && Snapshot(state, memory) == m
              else
                && blocks == Bump(old(blocks), pc) && blocksExecuted == (old(blocksExecuted) + 1) % P64
                && match CodeFlow(old(blocks)[pc].code, m)
                   case Goto(m') =>
                     && Snapshot(state, memory) == m'
                     && stop == if m'.regs.pc in old(blocks) then None else Some(Exited(m'.regs.pc))
                   case _ => stop == Some(GuestCrash) && Snapshot(state, memory) == m
    {
      hide CodeFlow, ScratchFree;
      var pc := state.pc;
      if pc !in blocks {
        return Some(NoBlock(pc));
      }
      var entry := blocks[pc];
      blocksExecuted := (blocksExecuted + 1) % P64;
      blocks := blocks[pc := entry.(hitCount := if entry.hitCount + 1 < P32 then entry.hitCount + 1 else P32 - 1)];
      var ok := Call(entry.code, state, memory);
      if !ok {
        return Some(GuestCrash);
      }
      if state.pc !in blocks {
        return Some(Exited(state.pc));
      }
      return None;
    }

    /** Enters translated code; scratch registers and flags hold anything. */
    method Call(code: seq<u8>, state: GuestState, memory: GuestMemory) returns (ok: bool)
      requires ScratchFree(code) && state.Valid()
      modifies state, state.gpr, memory
      ensures ok <==> CodeFlow(code, old(Snapshot(state, memory))).Goto?
      ensures Snapshot(state, memory) ==
              if ok then CodeFlow(code, old(Snapshot(state, memory))).jump else old(Snapshot(state, memory))
    {
      hide Exec, CodeFlow;
      var rax: u64, rcx: u64, rdx: u64, rsi: u64 := *, *, *, *;
      var flags: Flags := *;
      var s := Cpu(rax, rcx, rdx, rsi, flags, state.Value(), memory.contents);
      var out := Exec(code, 0, s, |code|);
      ScratchFreeAt(code, s);
      if out.Returned? {
        state.Assign(out.cpu.regs);
        memory.contents := out.cpu.mem;
        return true;
      }
      return false;
    }
  }

  lemma ScratchFreeAt(code: seq<u8>, s: Cpu)
    requires ScratchFree(code)
    ensures Observe(Exec(code, 0, s, |code|)) == CodeFlow(code, View(s))
  {
    hide Exec, CodeFlow, Observe;
  }

  /** A run from `m0` that has executed `trace` and reached `m`, with `blocks` counted so far. */
  ghost predicate Progress(cache: map<u64, CompiledBlock>, blocks: map<u64, CompiledBlock>,
                           m0: Machine, m: Machine, max: nat, trace: seq<u64>)
  {
    && |trace| <= max && blocks == BumpAll(cache, trace) && SameCode(cache, blocks)
    && (forall pc :: pc in trace ==> pc in cache)
    && RunSpec(cache, m0, max) == Appended(trace, RunSpec(cache, m, max - |trace|))
  }

  lemma CountOne(n: nat)
    ensures (n % P64 + 1) % P64 == (n + 1) % P64
  {
    ModAddMultiple(n % P64 + 1, n / P64, P64);
  }

  lemma ProgressStart(cache: map<u64, CompiledBlock>, m: Machine, max: nat)
    ensures Progress(cache, cache, m, m, max, []) && BumpAll(cache, []) == cache
  {
    hide RunSpec;
    var r := RunSpec(cache, m, max);
    assert [] + r.trace == r.trace;
  }

  lemma ProgressEnd(cache: map<u64, CompiledBlock>, blocks: map<u64, CompiledBlock>,
                    m0: Machine, m: Machine, max: nat, trace: seq<u64>)
    requires Progress(cache, blocks, m0, m, max, trace) && |trace| == max
    ensures blocks == BumpAll(cache, trace) && RunSpec(cache, m0, max) == RunState(BudgetExhausted, m, trace)
  {
    assert trace + [] == trace;
  }

  lemma ProgressMissing(cache: map<u64, CompiledBlock>, blocks: map<u64, CompiledBlock>,
                        m0: Machine, m: Machine, max: nat, trace: seq<u64>)
    requires Progress(cache, blocks, m0, m, max, trace) && |trace| < max && m.regs.pc !in blocks
    ensures RunSpec(cache, m0, max) == RunState(NoBlock(m.regs.pc), m, trace) && blocks == BumpAll(cache, trace)
  {
    hide RunSpec, BumpAll;
    RunUnfold(cache, blocks, m, max - |trace|);
    assert trace + [] == trace;
  }

  lemma ProgressCounted(cache: map<u64, CompiledBlock>, blocks: map<u64, CompiledBlock>,
                        m0: Machine, m: Machine, max: nat, trace: seq<u64>)
    requires Progress(cache, blocks, m0, m, max, trace) && m.regs.pc in blocks
    ensures Bump(blocks, m.regs.pc) == BumpAll(cache, trace + [m.regs.pc])
    ensures SameCode(cache, Bump(blocks, m.regs.pc))
  {
    hide RunSpec, BumpAll, Bump;
    BumpAllSnoc(cache, trace, m.regs.pc);
    BumpAllKeeps(cache, trace + [m.regs.pc]);
  }

  lemma ProgressOn(cache: map<u64, CompiledBlock>, blocks: map<u64, CompiledBlock>,
                   m0: Machine, m: Machine, m': Machine, max: nat, trace: seq<u64>)
    requires Progress(cache, blocks, m0, m, max, trace) && |trace| < max && m.regs.pc in blocks
    requires CodeFlow(blocks[m.regs.pc].code, m) == Goto(m') && m'.regs.pc in blocks
    ensures Progress(cache, Bump(blocks, m.regs.pc), m0, m', max, trace + [m.regs.pc])
  {
    hide RunSpec, CodeFlow, Bump, BumpAll, SameCode;
    RunUnfold(cache, blocks, m, max - |trace|);
    ProgressCounted(cache, blocks, m0, m, max, trace);
    AppendedStep(trace, m.regs.pc, RunSpec(cache, m', max - |trace| - 1));
    assert m.regs.pc in cache;
  }

  lemma ProgressStops(cache: map<u64, CompiledBlock>, blocks: map<u64, CompiledBlock>,
                      m0: Machine, m: Machine, max: nat, trace: seq<u64>)
    requires Progress(cache, blocks, m0, m, max, trace) && |trace| < max && m.regs.pc in blocks
    ensures var pc, run := m.regs.pc, RunSpec(cache, m0, max);
            match CodeFlow(blocks[pc].code, m)
            case Goto(m') => m'.regs.pc in blocks || run == RunState(Exited(m'.regs.pc), m', trace + [pc])
            case _ => run == RunState(GuestCrash, m, trace + [pc])
  {
    hide RunSpec, CodeFlow, BumpAll, SameCode;
    RunUnfold(cache, blocks, m, max - |trace|);
  }

  /** What one pass of the loop does to the run that is under way. */
  lemma ProgressStep(cache: map<u64, CompiledBlock>, blocks: map<u64, CompiledBlock>,
                     m0: Machine, m: Machine, max: nat, trace: seq<u64>)
    requires Progress(cache, blocks, m0, m, max, trace) && |trace| < max
    ensures var pc, run := m.regs.pc, RunSpec(cache, m0, max);
            if pc !in blocks then run == RunState(NoBlock(pc), m, trace) && blocks == BumpAll(cache, trace)
            else
              && Bump(blocks, pc) == BumpAll(cache, trace + [pc])
              && match CodeFlow(blocks[pc].code, m)
                 case Goto(m') =>
                   if m'.regs.pc in blocks then Progress(cache, Bump(blocks, pc), m0, m', max, trace + [pc])
                   else run == RunState(Exited(m'.regs.pc), m', trace + [pc])
                 case _ => run == RunState(GuestCrash, m, trace + [pc])
  {
    hide RunSpec, CodeFlow, Bump, BumpAll, SameCode, Progress;
    if m.regs.pc !in blocks {
      ProgressMissing(cache, blocks, m0, m, max, trace);
    } else {
      ProgressCounted(cache, blocks, m0, m, max, trace);
      ProgressStops(cache, blocks, m0, m, max, trace);
      match CodeFlow(blocks[m.regs.pc].code, m)
      case Goto(m') =>
        if m'.regs.pc in blocks {
          ProgressOn(cache, blocks, m0, m, m', max, trace);
        }
      case _ =>
    }
  }

  lemma {:induction false} BumpAllKeeps(blocks: map<u64, CompiledBlock>, trace: seq<u64>)
    ensures SameCode(blocks, BumpAll(blocks, trace))
    decreases |trace|
  {
    if trace != [] {
      if trace[0] in blocks {
        BumpKeeps(blocks, trace[0]);
        BumpAllKeeps(Bump(blocks, trace[0]), trace[1..]);
      } else {
        BumpAllKeeps(blocks, trace[1..]);
      }
    }
  }

  /** One step of a run, reading code from any cache that agrees on code. */
  lemma RunUnfold(cache: map<u64, CompiledBlock>, blocks: map<u64, CompiledBlock>, m: Machine, max: nat)
    requires max > 0 && SameCode(cache, blocks)
    ensures cache.Keys == blocks.Keys
    ensures var pc := m.regs.pc;
            RunSpec(cache, m, max) ==
            if pc !in blocks then RunState(NoBlock(pc), m, [])
            else
              match CodeFlow(blocks[pc].code, m)
              case Goto(m') =>
                if m'.regs.pc !in blocks then RunState(Exited(m'.regs.pc), m', [pc])
                else Prefixed(pc, RunSpec(cache, m', max - 1))
              case _ => RunState(GuestCrash, m, [pc])
  {
    hide CodeFlow;
  }

  /** The guest as a value. */
  function Snapshot(state: GuestState, memory: GuestMemory): Machine
    requires state.Valid()
    reads state, state.gpr, memory
  {
    Machine(state.Value(), memory.contents)
  }

  /** No entry's count reaches its maximum while the blocks of the trace are counted. */
  predicate Unsaturated(blocks: map<u64, CompiledBlock>, trace: seq<u64>) {
    forall pc :: pc in blocks ==> blocks[pc].hitCount + multiset(trace)[pc] < P32
  }

  lemma BumpSum(blocks: map<u64, CompiledBlock>, pc: u64)
    requires pc in blocks
    ensures SumHits(Bump(blocks, pc)) == SumHits(blocks) + if blocks[pc].hitCount + 1 < P32 then 1 else 0
  {
    hide SumHits;
    SumRemove(blocks, pc);
    SumInsert(blocks, pc, Bump(blocks, pc)[pc]);
  }

  lemma UnsaturatedStep(blocks: map<u64, CompiledBlock>, trace: seq<u64>)
    requires trace != [] && trace[0] in blocks
    ensures Unsaturated(blocks, trace) <==>
            blocks[trace[0]].hitCount + 1 < P32 && Unsaturated(Bump(blocks, trace[0]), trace[1..])
  {
    var pc, rest := trace[0], multiset(trace[1..]);
    var after := Bump(blocks, pc);
    assert trace == [pc] + trace[1..];
    assert forall p: u64 :: multiset(trace)[p] == rest[p] + if p == pc then 1 else 0;
    if Unsaturated(blocks, trace) {
      assert blocks[pc].hitCount + multiset(trace)[pc] < P32;
      forall p | p in after
        ensures after[p].hitCount + rest[p] < P32
      {
        assert blocks[p].hitCount + multiset(trace)[p] < P32;
      }
    } else if blocks[pc].hitCount + 1 < P32 {
      var p :| p in blocks && blocks[p].hitCount + multiset(trace)[p] >= P32;
      assert p in after && after[p].hitCount + rest[p] >= P32;
    }
  }

  /** Conservation of counts: the hits of all entries grow by at most the number of blocks
      that ran, and by exactly that number if and only if no entry saturates. */
  lemma {:induction false} HitsBalance(blocks: map<u64, CompiledBlock>, trace: seq<u64>)
    requires forall pc :: pc in trace ==> pc in blocks
    ensures SumHits(BumpAll(blocks, trace)) <= SumHits(blocks) + |trace|
    ensures SumHits(BumpAll(blocks, trace)) == SumHits(blocks) + |trace| <==> Unsaturated(blocks, trace)
    decreases |trace|
  {
    hide SumHits, Bump;
    if trace == [] {
      assert forall pc :: multiset(trace)[pc] == 0;
    } else {
      hide SumHits, Bump, Unsaturated;
      BumpSum(blocks, trace[0]);
      BumpKeeps(blocks, trace[0]);
      UnsaturatedStep(blocks, trace);
      HitsBalance(Bump(blocks, trace[0]), trace[1..]);
    }
  }

  /** A run keeps the balance of hits and executions short of saturation and wrap-around. */
  lemma RunBalances(blocks: map<u64, CompiledBlock>, m: Machine, max: nat, executed: u64)
    ensures var trace := RunSpec(blocks, m, max).trace;
            SumHits(blocks) == executed && Unsaturated(blocks, trace) && executed + |trace| < P64 ==>
              SumHits(BumpAll(blocks, trace)) == (executed + |trace|) % P64
  {
    hide RunSpec, BumpAll, SumHits, Unsaturated;
    TraceCached(blocks, m, max);
    HitsBalance(blocks, RunSpec(blocks, m, max).trace);
  }

  lemma {:induction false} RunIgnoresHits(a: map<u64, CompiledBlock>, b: map<u64, CompiledBlock>, m: Machine, max: nat)
    requires SameCode(a, b)
    ensures RunSpec(a, m, max) == RunSpec(b, m, max)
    decreases max
  {
    hide CodeFlow;
    var pc := m.regs.pc;
    if max > 0 && pc in a {
      match CodeFlow(a[pc].code, m)
      case Goto(m') => RunIgnoresHits(a, b, m', max - 1);
      case _ =>
    }
  }

  lemma {:induction false} BumpAllConcat(blocks: map<u64, CompiledBlock>, s: seq<u64>, t: seq<u64>)
    ensures BumpAll(blocks, s + t) == BumpAll(BumpAll(blocks, s), t)
    decreases |s|
  {
    hide Bump;
    if s == [] {
      assert s + t == t;
    } else {
      assert (s + t)[0] == s[0] && (s + t)[1..] == s[1..] + t;
      BumpAllConcat(if s[0] in blocks then Bump(blocks, s[0]) else blocks, s[1..], t);
    }
  }

  lemma WellFormedFlags(insts: seq<IRInst>)
    requires AllWellFormed(insts)
    ensures forall i :: 0 <= i < |insts| ==> FlagsAllowed(insts[i])
  {
  }

  lemma WindowSpans(words: seq<bv32>, guestPc: u64, decode: Decoder)
    requires 4 * |words| < P64
    ensures BlockProof.SpansItsWords(Window(words, guestPc, decode), ByteSpan(|Window(words, guestPc, decode)|))
  {
  }

  /** Translated code always has the effect of the optimized block, whatever the scratch state. */
  lemma TranslationRuns(guestPc: u64, words: seq<bv32>, decode: Decoder, s: Cpu)
    requires DecoderSane(decode) && 4 * |words| < P64
    requires AllInRange(Window(words, guestPc, decode)) && Translate(guestPc, words, decode).Ok?
    ensures var code := Translate(guestPc, words, decode).value;
            var out := Optimized(Window(words, guestPc, decode), NoConsts());
            AllInRange(out) && Observe(Exec(code, 0, s, |code|)) == RunBlock(out, guestPc, View(s))
  {
    hide Exec, EncAll, Lower, LowerBlock, RunBlock, AllWellFormed, AllShiftsConsistent, Optimized, Observe, DecoderSane, AllInRange, Window;
    WindowWellFormed(words, guestPc, decode);
    var insts := Window(words, guestPc, decode);
    OptimizedWellFormed(insts, NoConsts());
    Pipeline.WellFormedInRange(Optimized(insts, NoConsts()));
    WindowSpans(words, guestPc, decode);
    BlockProof.CodegenCorrect(guestPc, Optimized(insts, NoConsts()), ByteSpan(|insts|), s, |Translate(guestPc, words, decode).value|);
  }

  lemma TranslationScratchFree(guestPc: u64, words: seq<bv32>, decode: Decoder)
    requires DecoderSane(decode) && 4 * |words| < P64
    requires AllInRange(Window(words, guestPc, decode)) && Translate(guestPc, words, decode).Ok?
    ensures ScratchFree(Translate(guestPc, words, decode).value)
  {
    hide Exec, Translate, RunBlock, Optimized, Observe, DecoderSane, AllInRange, Window;
    var code := Translate(guestPc, words, decode).value;
    forall s: Cpu
      ensures Observe(Exec(code, 0, s, |code|)) == CodeFlow(code, View(s))
    {
      TranslationRuns(guestPc, words, decode, s);
      TranslationRuns(guestPc, words, decode, Cpu(0, 0, 0, 0, NO_FLAGS, s.regs, s.mem));
    }
  }
}
