/** Histories on the real objects: performing compilations and runs on a dispatcher, a guest
    state and guest memory follows, event by event, the sessions that the theorems speak of. */
module History {
  import opened Words
  import opened Arm
  import opened Lift
  import opened LiftProof
  import opened Runtime
  import opened Dispatch
  import opened Transparency

  /** The objects hold exactly what the session says. */
  ghost predicate Mirrors(s: Session, d: Dispatcher, state: GuestState, memory: GuestMemory)
    requires state.Valid()
    reads d, state, state.gpr, memory
  {
    s.blocks == d.blocks && s.executed == d.blocksExecuted && s.machine == Snapshot(state, memory)
  }

  predicate FitsAddressSpace(e: Event) {
    e.Compile? ==> 4 * |e.words| < P64
  }

  lemma SaneIsLawful(e: Event, decode: Decoder)
    requires DecoderSane(decode)
    ensures EventLawful(e, decode)
  {
    hide DecoderSane, Window, AllInRange;
    if e.Compile? {
      WindowWellFormed(e.words, e.at, decode);
    }
  }

  /** One compilation or run. */
  method Perform(e: Event, d: Dispatcher, state: GuestState, memory: GuestMemory, decode: Decoder, ghost s: Session)
    returns (ghost s': Session)
    requires d.Valid() && state.Valid() && Mirrors(s, d, state, memory)
    requires DecoderSane(decode) && FitsAddressSpace(e)
    modifies d, state, state.gpr, memory
    ensures EventLawful(e, decode) && s' == Apply(e, s, decode)
    ensures d.Valid() && Mirrors(s', d, state, memory)
  {
    hide DecoderSane, Window, AllInRange, Translate, RunSpec, BumpAll, ScratchFree, LiveCount, SumLive, Completed, Snapshot;
    SaneIsLawful(e, decode);
    s' := Apply(e, s, decode);
    match e {
      case Compile(at, words, mapped) =>
        var r := d.CompileBlock(at, words, decode, mapped);
      case Execute(max) =>
        var r, trace := d.Run(state, memory, max);
    }
  }

  /** Any number of them, in order. */
  method PerformAll(events: seq<Event>, d: Dispatcher, state: GuestState, memory: GuestMemory, decode: Decoder, ghost s: Session)
    returns (ghost s': Session)
    requires d.Valid() && state.Valid() && Mirrors(s, d, state, memory)
    requires DecoderSane(decode) && forall e :: e in events ==> FitsAddressSpace(e)
    modifies d, state, state.gpr, memory
    ensures AllLawful(events, decode) && s' == Replay(events, s, decode)
    ensures d.Valid() && Mirrors(s', d, state, memory)
  {
    hide DecoderSane, EventLawful, Apply, FitsAddressSpace, ScratchFree, Snapshot;
    forall e | e in events
      ensures EventLawful(e, decode)
    {
      SaneIsLawful(e, decode);
    }
    s' := s;
    assert events[0..] == events;
    for i := 0 to |events|
      invariant d.Valid() && Mirrors(s', d, state, memory)
      invariant AllLawful(events[i..], decode) && Replay(events[i..], s', decode) == Replay(events, s, decode)
    {
      assert events[i..][0] == events[i] && events[i..][1..] == events[i + 1..];
      assert events[i] in events;
      s' := Perform(events[i], d, state, memory, decode, s');
    }
  }
}
