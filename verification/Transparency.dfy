/** The block cache is invisible: running cached translations is running the guest
    text one instruction at a time. */
module Transparency {
  import opened Words
  import opened Ir
  import opened Arm
  import opened X86
  import Codegen
  import CodegenProof
  import opened Optimizer
  import opened OptimizerProof
  import Pipeline
  import opened Lift
  import opened LiftProof
  import opened Dispatch

  /** Guest program text: the word at each address. */
  type Text = map<u64, bv32>

  /** One guest instruction, fetched at the pc. */
  function StepGuest(text: Text, decode: Decoder, m: Machine): Flow {
    var pc := m.regs.pc;
    if pc !in text || !InstInRange(LiftInst(text[pc], pc, decode)) then Stuck
    else
      match ExecInst(LiftInst(text[pc], pc, decode), pc, m)
      case Fall(m') => Goto(SetPc(m', AddPc(pc, 4)))
      case out => out
  }

  /** `n` guest instructions, one at a time. */
  function Steps(text: Text, decode: Decoder, m: Machine, n: nat): Flow
    decreases n
  {
    if n == 0 then Goto(m)
    else
      match StepGuest(text, decode, m)
      case Goto(m') => Steps(text, decode, m', n - 1)
      case out => out
  }

  lemma {:induction false} StepsAdd(text: Text, decode: Decoder, m: Machine, a: nat, b: nat)
    ensures Steps(text, decode, m, a + b) ==
            match Steps(text, decode, m, a) case Goto(m') => Steps(text, decode, m', b) case out => out
    decreases a
  {
    hide StepGuest;
    if a > 0 {
      match StepGuest(text, decode, m)
      case Goto(m') => StepsAdd(text, decode, m', a - 1, b);
      case _ =>
    }
  }

  /** The words at `pc` are those of the text. */
  predicate WindowOf(text: Text, pc: u64, words: seq<bv32>)
    decreases |words|
  {
    words == [] || (pc in text && text[pc] == words[0] && WindowOf(text, AddPc(pc, 4), words[1..]))
  }

  // ----- blocks are runs of single steps ---------------------------------------------

  /** Instructions read no pc, so a stale one makes no difference. */
  lemma StalePc(inst: IRInst, pc: u64, m: Machine, q: u64)
    requires InstInRange(inst)
    ensures ExecInst(inst, pc, SetPc(m, q)) ==
            match ExecInst(inst, pc, m) case Fall(m') => Fall(SetPc(m', q)) case out => out
  {
    hide Arith, ShiftValue, LoadWord, StoreWord, Eval, Taken, Address, Read, WriteBack, ExecBinop;
    var g, g' := m.regs, SetPc(m, q).regs;
    StaleReads(inst, m, q);
    assert forall r: GuestReg, v: u64 :: InRange(r) ==> WriteBack(SetPc(m, q), r, v) == SetPc(WriteBack(m, r, v), q) by {
      StaleWrites(m, q);
    }
    if IsBinop(inst.opcode) {
      StalePcBinop(inst, m, q);
    }
  }

  /** No read of an instruction sees the pc. */
  lemma StaleReads(inst: IRInst, m: Machine, q: u64)
    requires InstInRange(inst)
    ensures var g, g' := m.regs, SetPc(m, q).regs;
            && (forall w :: Eval(inst.b, w, g') == Eval(inst.b, w, g) && Eval(inst.c, w, g') == Eval(inst.c, w, g))
            && (inst.a.Mem? ==> Address(inst.a.mem, g') == Address(inst.a.mem, g))
            && (inst.b.Mem? ==> Address(inst.b.mem, g') == Address(inst.b.mem, g))
            && (inst.c.ShiftReg? ==> Read(g', inst.c.amount) == Read(g, inst.c.amount))
            && Taken(inst, g') == Taken(inst, g)
  {
    hide ShiftValue, ConditionHolds, Unpack;
  }

  lemma StaleWrites(m: Machine, q: u64)
    ensures forall r: GuestReg, v: u64 :: InRange(r) ==> WriteBack(SetPc(m, q), r, v) == SetPc(WriteBack(m, r, v), q)
  {
  }

  lemma StalePcBinop(inst: IRInst, m: Machine, q: u64)
    requires InstInRange(inst) && IsBinop(inst.opcode)
    ensures ExecBinop(inst, SetPc(m, q)) ==
            match ExecBinop(inst, m) case Fall(m') => Fall(SetPc(m', q)) case out => out
  {
    hide Arith, Eval, Pack, Read, Taken, WriteBack;
    StaleReads(inst, m, q);
    StaleWrites(m, q);
  }

  /** Instructions a block executes: up to and including the first exit. */
  function LiveCount(insts: seq<IRInst>): nat {
    if insts == [] then 0
    else if EndsBlock(insts[0].opcode) then 1
    else 1 + LiveCount(insts[1..])
  }

  /** A lifted block does what that many single steps do. */
  lemma {:induction false} BlockIsSteps(text: Text, decode: Decoder, words: seq<bv32>, pc: u64, m: Machine)
    requires WindowOf(text, pc, words) && AllInRange(LiftAll(words, pc, decode))
    ensures var insts := LiftAll(words, pc, decode);
            RunBlock(insts, pc, m) == Steps(text, decode, SetPc(m, pc), LiveCount(insts))
    decreases |words|
  {
    hide ExecInst, LiftInst, InstInRange;
    var insts := LiftAll(words, pc, decode);
    if words != [] {
      var inst := insts[0];
      assert insts[1..] == LiftAll(words[1..], AddPc(pc, 4), decode);
      assert InstInRange(inst);
      StalePc(inst, pc, m, pc);
      match ExecInst(inst, pc, m)
      case Fall(m') =>
        if EndsBlock(inst.opcode) {
          ExitNeverFalls(inst, pc, m);
        }
        BlockIsSteps(text, decode, words[1..], AddPc(pc, 4), m');
        assert SetPc(SetPc(m', pc), AddPc(pc, 4)) == SetPc(m', AddPc(pc, 4));
      case Goto(m') =>
        if !EndsBlock(inst.opcode) {
          Pipeline.OnlyExitsJump(inst, pc, m);
        }
      case _ =>
    }
  }

  // ----- translations ----------------------------------------------------------------

  /** `code` does what `n` guest steps from `pc` do, and they have a meaning. */
  ghost predicate RunsSteps(code: seq<u8>, text: Text, decode: Decoder, pc: u64, n: nat) {
    forall m: Machine :: m.regs.pc == pc ==>
      CodeFlow(code, m) == Steps(text, decode, m, n) && CodeFlow(code, m) != Stuck
  }

  /** Every cached block stands for `live` guest steps from its key. */
  ghost predicate Faithful(blocks: map<u64, CompiledBlock>, live: map<u64, nat>, text: Text, decode: Decoder) {
    live.Keys == blocks.Keys && forall pc :: pc in blocks ==> RunsSteps(blocks[pc].code, text, decode, pc, live[pc])
  }

  /** The block is one the backend supports as lifted, and folds no wrong rotation. */
  predicate SafeWindow(words: seq<bv32>, guestPc: u64, decode: Decoder) {
    var insts := Window(words, guestPc, decode);
    AllInRange(insts) && NoMisfold(insts, NoConsts()) && Codegen.LowerBlock(guestPc, insts, ByteSpan(|insts|)).Ok?
  }

  /** Translated code has the effect of the window it was made from, which has a meaning. */
  lemma TranslationMeans(guestPc: u64, words: seq<bv32>, decode: Decoder, m: Machine)
    requires DecoderSane(decode) && 4 * |words| < P64
    requires SafeWindow(words, guestPc, decode) && Translate(guestPc, words, decode).Ok?
    ensures var insts := Window(words, guestPc, decode);
            && CodeFlow(Translate(guestPc, words, decode).value, m) == RunBlock(insts, guestPc, m)
            && RunBlock(insts, guestPc, m) != Stuck
  {
    hide Exec, EncAll, Codegen.Lower, RunBlock, AllWellFormed, AllShiftsConsistent, Optimized, Observe, DecoderSane, AllInRange, NoMisfold, Window, Known;
    var insts := Window(words, guestPc, decode);
    var s := Cpu(0, 0, 0, 0, NO_FLAGS, m.regs, m.mem);
    WindowWellFormed(words, guestPc, decode);
    TranslationRuns(guestPc, words, decode, s);
    assert CodegenProof.View(s) == m;
    Pipeline.AcceptedBlockRuns(insts, guestPc, if insts == [] then guestPc else AddPc(guestPc, ByteSpan(|insts|)), m);
    Pipeline.NothingKnown(m.regs);
    OptimizedSound(insts, NoConsts(), guestPc, m);
  }

  /** The words a translation is made from. */
  function BlockWords(words: seq<bv32>, decode: Decoder): seq<bv32> {
    words[..Consumed(words, decode)]
  }

  /** Compiling a window produces a faithful entry if the words it consumes are text. */
  lemma TranslationFaithful(text: Text, decode: Decoder, guestPc: u64, words: seq<bv32>)
    requires DecoderSane(decode) && 4 * |words| < P64 && WindowOf(text, guestPc, BlockWords(words, decode))
    requires SafeWindow(words, guestPc, decode) && Translate(guestPc, words, decode).Ok?
    ensures RunsSteps(Translate(guestPc, words, decode).value, text, decode, guestPc,
                      LiveCount(Window(words, guestPc, decode)))
  {
    hide CodeFlow, Translate, RunBlock, DecoderSane, AllInRange, NoMisfold, Steps, LiftAll, LiveCount, Codegen.LowerBlock;
    var insts := Window(words, guestPc, decode);
    var code := Translate(guestPc, words, decode).value;
    forall m: Machine | m.regs.pc == guestPc
      ensures CodeFlow(code, m) == Steps(text, decode, m, LiveCount(insts)) && CodeFlow(code, m) != Stuck
    {
      TranslationMeans(guestPc, words, decode, m);
      BlockIsSteps(text, decode, BlockWords(words, decode), guestPc, m);
      assert SetPc(m, guestPc) == m;
    }
  }

  // ----- runs ------------------------------------------------------------------------

  /** Guest steps of the blocks with these keys. */
  function SumLive(live: map<u64, nat>, trace: seq<u64>): nat {
    if trace == [] then 0
    else (if trace[0] in live then live[trace[0]] else 0) + SumLive(live, trace[1..])
  }

  lemma {:induction false} SumLiveConcat(live: map<u64, nat>, s: seq<u64>, t: seq<u64>)
    ensures SumLive(live, s + t) == SumLive(live, s) + SumLive(live, t)
    decreases |s|
  {
    if s == [] {
      assert s + t == t;
    } else {
      assert (s + t)[0] == s[0] && (s + t)[1..] == s[1..] + t;
      SumLiveConcat(live, s[1..], t);
    }
  }

  /** A block of at least one word makes at least one step. */
  lemma {:induction false} SumLiveAtLeast(live: map<u64, nat>, trace: seq<u64>)
    requires forall pc :: pc in trace ==> pc in live && live[pc] > 0
    ensures SumLive(live, trace) >= |trace|
    decreases |trace|
  {
    if trace != [] {
      SumLiveAtLeast(live, trace[1..]);
    }
  }

  /** The blocks that ran to their end: all but one that crashed. */
  function Completed(r: RunState): seq<u64> {
    if r.outcome == GuestCrash && r.trace != [] then r.trace[..|r.trace| - 1] else r.trace
  }

  lemma CompletedPrefixed(pc: u64, r: RunState)
    requires r.outcome == GuestCrash ==> r.trace != []
    ensures Completed(Prefixed(pc, r)) == [pc] + Completed(r)
    ensures r.outcome == GuestCrash ==> Last(Prefixed(pc, r).trace) == Last(r.trace)
  {
  }

  function Last(trace: seq<u64>): u64
    requires trace != []
  {
    trace[|trace| - 1]
  }

  /** A run that crashed stopped in front of a block whose own steps fault. */
  ghost predicate CrashIsFault(r: RunState, live: map<u64, nat>, text: Text, decode: Decoder) {
    r.outcome == GuestCrash ==>
      r.trace != [] && Last(r.trace) in live && Steps(text, decode, r.machine, live[Last(r.trace)]) == Fault
  }

  /** A run makes exactly the guest steps of the blocks it completes, and a crash is a
      fault of the guest program itself. */
  lemma {:induction false} RunIsSteps(blocks: map<u64, CompiledBlock>, live: map<u64, nat>, text: Text, decode: Decoder,
                                      m: Machine, max: nat)
    requires Faithful(blocks, live, text, decode)
    ensures var r := RunSpec(blocks, m, max);
            && Steps(text, decode, m, SumLive(live, Completed(r))) == Goto(r.machine)
            && CrashIsFault(r, live, text, decode)
    decreases max
  {
    hide CodeFlow, Steps, SumLive, Completed, RunsSteps;
    var pc := m.regs.pc;
    StepsZero(text, decode, m);
    SumLiveFew(live, pc);
    CompletedFew();
    if max > 0 && pc in blocks {
      RunsStepsAt(blocks[pc].code, text, decode, m, live[pc]);
      CodeNeverFalls(blocks[pc].code, m);
      match CodeFlow(blocks[pc].code, m)
      case Goto(m') =>
        if m'.regs.pc in blocks {
          var rest := RunSpec(blocks, m', max - 1);
          RunIsSteps(blocks, live, text, decode, m', max - 1);
          CompletedPrefixed(pc, rest);
          SumLiveConcat(live, [pc], Completed(rest));
          StepsAdd(text, decode, m, live[pc], SumLive(live, Completed(rest)));
        }
      case _ =>
    }
  }

  lemma RunsStepsAt(code: seq<u8>, text: Text, decode: Decoder, m: Machine, n: nat)
    requires RunsSteps(code, text, decode, m.regs.pc, n)
    ensures CodeFlow(code, m) == Steps(text, decode, m, n) && CodeFlow(code, m) != Stuck
  {
    hide CodeFlow, Steps;
  }

  /** Runs of no block and of one. */
  lemma CompletedFew()
    ensures forall out, m' :: Completed(RunState(out, m', [])) == []
    ensures forall out: RunOutcome, m': Machine, pc: u64 ::
              Completed(RunState(out, m', [pc])) == if out == GuestCrash then [] else [pc]
  {
  }

  lemma SumLiveFew(live: map<u64, nat>, pc: u64)
    ensures SumLive(live, []) == 0 && SumLive(live, [pc]) == if pc in live then live[pc] else 0
  {
    assert [pc][1..] == [];
  }

  lemma StepsZero(text: Text, decode: Decoder, m: Machine)
    ensures Steps(text, decode, m, 0) == Goto(m)
  {
  }

  lemma CodeNeverFalls(code: seq<u8>, m: Machine)
    ensures !CodeFlow(code, m).Fall?
  {
    hide Exec;
  }

  // ----- histories -------------------------------------------------------------------

  datatype Event = Compile(at: u64, words: seq<bv32>, mapped: bool) | Execute(max: nat)

  /** The cache and how many live instructions each entry has, the guest, the count of
      blocks executed, and the guest steps made. */
  datatype Session = Session(blocks: map<u64, CompiledBlock>, live: map<u64, nat>, machine: Machine, executed: u64, steps: nat)

  function Start(m: Machine): Session {
    Session(map[], map[], m, 0, 0)
  }

  /** Register numbers of everything lifted exist, as they do with a sane decoder. */
  predicate EventLawful(e: Event, decode: Decoder) {
    e.Compile? ==> AllInRange(Window(e.words, e.at, decode))
  }

  predicate AllLawful(events: seq<Event>, decode: Decoder) {
    forall e :: e in events ==> EventLawful(e, decode)
  }

  /** What `CompileBlock` and `Run` do to the cache and the guest. */
  function Apply(e: Event, s: Session, decode: Decoder): Session
    requires EventLawful(e, decode)
  {
    match e
    case Compile(at, words, mapped) =>
      (match Translate(at, words, decode)
       case Ok(code) =>
         if mapped then s.(blocks := s.blocks[at := CompiledBlock(code, 0)], live := s.live[at := LiveCount(Window(words, at, decode))])
         else s
       case Err(_) => s)
    case Execute(max) =>
      var r := RunSpec(s.blocks, s.machine, max);
      Session(BumpAll(s.blocks, r.trace), s.live, r.machine, (s.executed + |r.trace|) % P64,
              s.steps + SumLive(s.live, Completed(r)))
  }

  function Replay(events: seq<Event>, s: Session, decode: Decoder): Session
    requires AllLawful(events, decode)
  {
    if events == [] then s
    else
      assert events[0] in events;
      Replay(events[1..], Apply(events[0], s, decode), decode)
  }

  /** A compilation that succeeds is of text words, of supported code without wrong
      rotations; one that fails may be of anything. */
  predicate EventSafe(e: Event, text: Text, decode: Decoder) {
    && EventLawful(e, decode)
    && (e.Compile? && e.mapped && Translate(e.at, e.words, decode).Ok? ==>
          && 4 * |e.words| < P64 && WindowOf(text, e.at, BlockWords(e.words, decode))
          && SafeWindow(e.words, e.at, decode))
  }

  predicate AllSafe(events: seq<Event>, text: Text, decode: Decoder) {
    forall e :: e in events ==> EventSafe(e, text, decode)
  }

  lemma SafeIsLawful(events: seq<Event>, text: Text, decode: Decoder)
    requires AllSafe(events, text, decode)
    ensures AllLawful(events, decode)
  {
    hide EventLawful, SafeWindow, WindowOf, Translate;
  }

  lemma FaithfulBumped(blocks: map<u64, CompiledBlock>, live: map<u64, nat>, trace: seq<u64>, text: Text, decode: Decoder)
    requires Faithful(blocks, live, text, decode)
    ensures Faithful(BumpAll(blocks, trace), live, text, decode)
  {
    hide RunsSteps, BumpAll;
    BumpAllKeeps(blocks, trace);
  }

  lemma ApplyFaithful(e: Event, s: Session, text: Text, decode: Decoder)
    requires DecoderSane(decode) && EventSafe(e, text, decode) && Faithful(s.blocks, s.live, text, decode)
    ensures var s' := Apply(e, s, decode); Faithful(s'.blocks, s'.live, text, decode)
  {
    hide RunsSteps, Translate, RunSpec, DecoderSane, WindowOf, SafeWindow, BumpAll, Window, LiveCount, SumLive;
    match e
    case Compile(at, words, mapped) =>
      if mapped && Translate(at, words, decode).Ok? {
        TranslationFaithful(text, decode, at, words);
      }
    case Execute(max) =>
      FaithfulBumped(s.blocks, s.live, RunSpec(s.blocks, s.machine, max).trace, text, decode);
  }

  /** Every other address has the entry it had. */
  predicate OthersKept<T(==)>(before: map<u64, T>, after: map<u64, T>, at: u64) {
    forall pc: u64 :: pc != at ==>
      (pc in after <==> pc in before) && (pc in before ==> pc in after && after[pc] == before[pc])
  }

  /** A compilation that succeeds and is mapped caches, under its address and with no hits,
      code that does the guest steps from there; any other compilation changes nothing. */
  lemma CompileCaches(e: Event, s: Session, text: Text, decode: Decoder)
    requires DecoderSane(decode) && EventSafe(e, text, decode) && e.Compile?
    ensures var s' := Apply(e, s, decode);
            if e.mapped && Translate(e.at, e.words, decode).Ok? then
              && e.at in s'.blocks && s'.blocks[e.at].hitCount == 0
              && RunsSteps(s'.blocks[e.at].code, text, decode, e.at, LiveCount(Window(e.words, e.at, decode)))
              && e.at in s'.live && s'.live[e.at] == LiveCount(Window(e.words, e.at, decode))
              && OthersKept(s.blocks, s'.blocks, e.at) && OthersKept(s.live, s'.live, e.at)
              && s'.machine == s.machine && s'.executed == s.executed && s'.steps == s.steps
            else s' == s
  {
    hide RunsSteps, Translate, DecoderSane, WindowOf, SafeWindow, Window, LiveCount;
    if e.mapped && Translate(e.at, e.words, decode).Ok? {
      TranslationFaithful(text, decode, e.at, e.words);
    }
  }

  /** A run from a cached pc whose block completes makes at least that block's steps. */
  lemma FirstCompleted(blocks: map<u64, CompiledBlock>, live: map<u64, nat>, m: Machine, max: nat)
    requires max > 0 && m.regs.pc in blocks && m.regs.pc in live && CodeFlow(blocks[m.regs.pc].code, m).Goto?
    ensures SumLive(live, Completed(RunSpec(blocks, m, max))) >= live[m.regs.pc]
  {
    hide CodeFlow, SumLive;
    var pc := m.regs.pc;
    var m' := CodeFlow(blocks[pc].code, m).jump;
    SumLiveFew(live, pc);
    if m'.regs.pc in blocks {
      var rest := RunSpec(blocks, m', max - 1);
      CrashHasTrace(blocks, m', max - 1);
      CompletedPrefixed(pc, rest);
      SumLiveConcat(live, [pc], Completed(rest));
    }
  }

  lemma CrashHasTrace(blocks: map<u64, CompiledBlock>, m: Machine, max: nat)
    ensures RunSpec(blocks, m, max).outcome == GuestCrash ==> RunSpec(blocks, m, max).trace != []
    decreases max
  {
    hide CodeFlow;
  }

  /** Once compiled, the block at the guest's pc runs: with any budget the guest makes at
      least the block's steps, unless they fault. */
  lemma CompileThenRun(e: Event, max: nat, s: Session, text: Text, decode: Decoder)
    requires DecoderSane(decode) && EventSafe(e, text, decode) && e.Compile? && max > 0
    requires e.mapped && Translate(e.at, e.words, decode).Ok? && s.machine.regs.pc == e.at
    ensures var n := LiveCount(Window(e.words, e.at, decode));
            var s' := Apply(Execute(max), Apply(e, s, decode), decode);
            Steps(text, decode, s.machine, n) == Fault
            || s'.steps >= s.steps + n
  {
    hide RunsSteps, Translate, DecoderSane, WindowOf, SafeWindow, Window, LiveCount, Steps, CodeFlow, BumpAll, SumLive;
    CompileCaches(e, s, text, decode);
    var c := Apply(e, s, decode);
    var n := LiveCount(Window(e.words, e.at, decode));
    RunsStepsAt(c.blocks[e.at].code, text, decode, s.machine, n);
    CodeNeverFalls(c.blocks[e.at].code, s.machine);
    if CodeFlow(c.blocks[e.at].code, s.machine).Goto? {
      FirstCompleted(c.blocks, c.live, s.machine, max);
    }
  }

  /** Cache transparency over whole histories: after any sequence of compilations (any
      windows, any order, recompilations and failures included) and runs, the guest is
      where single-stepping its own text takes it in exactly the steps that the completed
      blocks have. */
  lemma {:induction false} HistoryTransparent(events: seq<Event>, s: Session, text: Text, decode: Decoder)
    requires DecoderSane(decode) && Faithful(s.blocks, s.live, text, decode) && AllSafe(events, text, decode)
    ensures AllLawful(events, decode)
    ensures var end := Replay(events, s, decode);
            && end.steps >= s.steps
            && Steps(text, decode, s.machine, end.steps - s.steps) == Goto(end.machine)
            && Faithful(end.blocks, end.live, text, decode)
    decreases |events|
  {
    hide Steps, RunsSteps, DecoderSane, EventSafe, EventLawful, Faithful, Apply;
    SafeIsLawful(events, text, decode);
    StepsZero(text, decode, s.machine);
    if events != [] {
      assert events[0] in events;
      ApplyFaithful(events[0], s, text, decode);
      ApplySteps(events[0], s, text, decode);
      var s' := Apply(events[0], s, decode);
      HistoryTransparent(events[1..], s', text, decode);
      StepsAdd(text, decode, s.machine, s'.steps - s.steps, Replay(events[1..], s', decode).steps - s'.steps);
    }
  }

  lemma ApplySteps(e: Event, s: Session, text: Text, decode: Decoder)
    requires EventSafe(e, text, decode) && Faithful(s.blocks, s.live, text, decode)
    ensures var s' := Apply(e, s, decode);
            s'.steps >= s.steps && Steps(text, decode, s.machine, s'.steps - s.steps) == Goto(s'.machine)
  {
    hide Steps, Faithful, Translate, RunSpec, WindowOf, SafeWindow, BumpAll, Window, LiveCount, SumLive;
    StepsZero(text, decode, s.machine);
    if e.Execute? {
      RunIsSteps(s.blocks, s.live, text, decode, s.machine, e.max);
    }
  }
}
