/** From native code back to the architecture: whatever is compiled and run, in
    whatever order, the guest is where the Arm architecture takes its program. */
module EndToEnd {
  import Ir
  import opened Arm
  import opened Lift
  import opened LiftProof
  import Reference
  import LiftMeaning
  import opened Transparency

  /** One architectural instruction, fetched at the pc. */
  function StepArm(text: Text, decode: Decoder, m: Machine): Flow {
    var pc := m.regs.pc;
    if pc !in text then Stuck
    else
      match Reference.ArmInst(text[pc], pc, decode, m)
      case Fall(m') => Goto(SetPc(m', Ir.AddPc(pc, 4)))
      case out => out
  }

  function ArmSteps(text: Text, decode: Decoder, m: Machine, n: nat): Flow
    decreases n
  {
    if n == 0 then Goto(m)
    else
      match StepArm(text, decode, m)
      case Goto(m') => ArmSteps(text, decode, m', n - 1)
      case out => out
  }

  /** No condition-15 branch and no return through another register than X30 in the text. */
  predicate PlainText(text: Text, decode: Decoder) {
    forall pc :: pc in text ==> LiftMeaning.Plain(text[pc], decode)
  }

  lemma StepIsArm(text: Text, decode: Decoder, m: Machine)
    requires DecoderSane(decode) && PlainText(text, decode)
    ensures StepGuest(text, decode, m) == StepArm(text, decode, m)
  {
    hide LiftInst, Reference.ArmInst, ExecInst, WordSane, LiftMeaning.Plain, InstInRange;
    var pc := m.regs.pc;
    if pc in text {
      LiftMeaning.PlainIsArm(text[pc], pc, decode, m);
    }
  }

  lemma {:induction false} StepsAreArm(text: Text, decode: Decoder, m: Machine, n: nat)
    requires DecoderSane(decode) && PlainText(text, decode)
    ensures Steps(text, decode, m, n) == ArmSteps(text, decode, m, n)
    decreases n
  {
    hide StepGuest, StepArm, DecoderSane, PlainText;
    if n > 0 {
      StepIsArm(text, decode, m);
      match StepArm(text, decode, m)
      case Goto(m') => StepsAreArm(text, decode, m', n - 1);
      case _ =>
    }
  }

  /** Correctness of the translator: after any history of compilations and runs from an
      empty cache, the guest is where the architecture takes it in as many steps as the
      completed blocks have live instructions. */
  lemma TranslatorCorrect(events: seq<Event>, m: Machine, text: Text, decode: Decoder)
    requires DecoderSane(decode) && PlainText(text, decode) && AllSafe(events, text, decode)
    ensures AllLawful(events, decode)
    ensures var end := Replay(events, Start(m), decode);
            ArmSteps(text, decode, m, end.steps) == Goto(end.machine)
  {
    hide Steps, ArmSteps, DecoderSane, PlainText, AllSafe, AllLawful, Replay, RunsSteps;
    HistoryTransparent(events, Start(m), text, decode);
    StepsAreArm(text, decode, m, Replay(events, Start(m), decode).steps);
  }
}
