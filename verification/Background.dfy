/** The background compiler (src/jit/compiler.rs) as a state machine: callers
    enqueue, one worker receives, compiles and sends, either end may hang up. */
module Background {
  import opened Words
  import Ir
  import Arm
  import X86
  import Codegen
  import Optimizer
  import Pipeline

  datatype CompileRequest = CompileRequest(pc: u64, guestPc: u64, insts: seq<Ir.IRInst>, byteLen: u64)

  /** Requests hold well-formed blocks, as the lifter makes them. */
  type Request = r: CompileRequest | Arm.AllWellFormed(r.insts) witness CompileRequest(0, 0, [], 0)

  datatype CompiledCode = CompiledCode(pc: u64, code: seq<u8>)

  /** Code for a request, if the backend accepts it once optimized. */
  function Process(req: Request): Option<seq<u8>> {
    Pipeline.WellFormedInRange(req.insts);
    match Codegen.LowerBlock(req.guestPc, Optimizer.Optimized(req.insts, Optimizer.NoConsts()), req.byteLen)
    case Ok(code) => Some(X86.EncAll(code))
    case Err(_) => None
  }

  /** `queue`: requests sent and not yet received.  `accepted`: every request whose send
      succeeded.  `mappings`: for each request received so far, whether the host could map
      its code.  `broke`: the worker left because nobody receives results any more. */
  datatype State = State(
    queue: seq<Request>, senderOpen: bool, receiverOpen: bool, working: bool, broke: bool,
    results: seq<CompiledCode>, accepted: seq<Request>, mappings: seq<bool>)

  const SPAWNED := State([], true, true, true, false, [], [], [])

  datatype Action =
    | Enqueue(req: Request)      // send a request
    | Receive(mapped: bool)      // the worker takes and compiles one request
    | WorkerLeaves               // the request channel is empty and closed
    | DropReceiver               // nobody wants results any more
    | DropSender                 // first half of dropping the compiler

  /** Whether sending a request succeeds. */
  predicate SendSucceeds(s: State) {
    s.senderOpen && s.working
  }

  predicate Enabled(a: Action, s: State) {
    match a
    case Enqueue(_) => true
    case Receive(_) => s.working && s.queue != []
    case WorkerLeaves => s.working && s.queue == [] && !s.senderOpen
    case DropReceiver => s.receiverOpen
    case DropSender => s.senderOpen
  }

  function Next(a: Action, s: State): State
    requires Enabled(a, s)
  {
    match a
    case Enqueue(req) =>
      if SendSucceeds(s) then s.(queue := s.queue + [req], accepted := s.accepted + [req]) else s
    case Receive(mapped) =>
      var req := s.queue[0];
      var received := s.(queue := s.queue[1..], mappings := s.mappings + [mapped]);
      var code := Process(req);
      if code.None? || !mapped then received
      else if s.receiverOpen then received.(results := s.results + [CompiledCode(req.pc, code.value)])
      else received.(working := false, broke := true, queue := [])
    case WorkerLeaves => s.(working := false)
    case DropReceiver => s.(receiverOpen := false)
    case DropSender => s.(senderOpen := false)
  }

  /** `s` is reached from `start` by the actions, in this order. */
  predicate Reaches(start: State, actions: seq<Action>, s: State)
    decreases |actions|
  {
    if actions == [] then s == start
    else Enabled(actions[0], start) && Reaches(Next(actions[0], start), actions[1..], s)
  }

  /** What one more received request adds to the results owed. */
  function Output(req: Request, mapped: bool): seq<CompiledCode> {
    var code := Process(req);
    if code.Some? && mapped then [CompiledCode(req.pc, code.value)] else []
  }

  /** The results owed for requests `reqs`, in order: those that compile and map. */
  function Outputs(reqs: seq<Request>, mappings: seq<bool>): seq<CompiledCode>
    requires |reqs| == |mappings|
  {
    if reqs == [] then []
    else
      var n := |reqs| - 1;
      Outputs(reqs[..n], mappings[..n]) + Output(reqs[n], mappings[n])
  }

  /** Requests whose fate is settled: all that were received, except the one whose result could not be sent. */
  function Settled(s: State): nat {
    if s.broke && |s.mappings| > 0 then |s.mappings| - 1 else |s.mappings|
  }

  predicate Inv(s: State) {
    && |s.mappings| <= |s.accepted|
    && (s.working ==> s.queue == s.accepted[|s.mappings|..] && !s.broke)
    && (s.broke ==> !s.receiverOpen && |s.mappings| > 0)
    && (!s.working && !s.broke ==> !s.senderOpen && |s.mappings| == |s.accepted|)
    && s.results == Outputs(s.accepted[..Settled(s)], s.mappings[..Settled(s)])
  }

  lemma InvStep(a: Action, s: State)
    requires Inv(s) && Enabled(a, s)
    ensures Inv(Next(a, s))
  {
    hide Process;
    var n := |s.mappings|;
    match a
    case Enqueue(req) =>
      if SendSucceeds(s) {
        var s' := Next(a, s);
        assert s'.accepted[n..] == s.accepted[n..] + [req];
        assert s'.accepted[..n] == s.accepted[..n];
        PrefixKept(s.accepted, req, Settled(s));
      }
    case Receive(mapped) => InvReceive(mapped, s);
    case _ =>
  }

  lemma PrefixKept(reqs: seq<Request>, req: Request, n: nat)
    requires n <= |reqs|
    ensures (reqs + [req])[..n] == reqs[..n]
  {
  }

  lemma OutputsSnoc(reqs: seq<Request>, mappings: seq<bool>, mapped: bool)
    requires |reqs| == |mappings| + 1
    ensures var n := |mappings|;
            Outputs(reqs, mappings + [mapped]) == Outputs(reqs[..n], mappings) + Output(reqs[n], mapped)
  {
    hide Process;
    assert (mappings + [mapped])[..|mappings|] == mappings;
  }

  lemma InvReceive(mapped: bool, s: State)
    requires Inv(s) && Enabled(Receive(mapped), s)
    ensures Inv(Next(Receive(mapped), s))
  {
    hide Process, Outputs, Output;
    var n := |s.mappings|;
    var req, maps := s.queue[0], s.mappings + [mapped];
    QueueHead(s.accepted, n);
    OutputsSnoc(s.accepted[..n + 1], s.mappings, mapped);
    assert s.mappings[..n] == s.mappings && maps[..n + 1] == maps && maps[..n] == s.mappings;
    ReceivedResults(req, mapped, s);
  }

  lemma QueueHead(accepted: seq<Request>, n: nat)
    requires n < |accepted|
    ensures accepted[n..][0] == accepted[n] && accepted[n..][1..] == accepted[n + 1..]
    ensures accepted[..n + 1][..n] == accepted[..n] && accepted[..n + 1][n] == accepted[n]
  {
  }

  /** A received request adds its output, unless it is the one that could not be sent. */
  lemma ReceivedResults(req: Request, mapped: bool, s: State)
    requires Enabled(Receive(mapped), s) && s.queue[0] == req
    ensures var s' := Next(Receive(mapped), s);
            && s'.accepted == s.accepted && s'.mappings == s.mappings + [mapped]
            && s'.senderOpen == s.senderOpen && s'.receiverOpen == s.receiverOpen
            && (s'.working ==> s'.queue == s.queue[1..] && s'.broke == s.broke && s'.results == s.results + Output(req, mapped))
            && (!s'.working ==> s'.broke && s'.results == s.results)
            && (!s'.working <==> Process(req).Some? && mapped && !s.receiverOpen)
  {
    hide Process;
    assert s.results + [] == s.results;
  }

  lemma {:induction false} InvRuns(start: State, actions: seq<Action>, s: State)
    requires Inv(start) && Reaches(start, actions, s)
    ensures Inv(s)
    decreases |actions|
  {
    hide Inv, Next;
    if actions != [] {
      InvStep(actions[0], start);
      InvRuns(Next(actions[0], start), actions[1..], s);
    }
  }

  /** In every interleaving the results are the order-preserving image of a prefix of the
      accepted requests, and once the worker has left with the results still wanted, of all of them. */
  lemma EveryInterleaving(actions: seq<Action>, s: State)
    requires Reaches(SPAWNED, actions, s)
    ensures Settled(s) <= |s.accepted| && Settled(s) <= |s.mappings|
    ensures s.results == Outputs(s.accepted[..Settled(s)], s.mappings[..Settled(s)])
    ensures !s.working && s.receiverOpen ==>
              |s.mappings| == |s.accepted| && s.results == Outputs(s.accepted, s.mappings)
  {
    hide Outputs;
    assert Inv(SPAWNED) by { SpawnedInv(); }
    InvRuns(SPAWNED, actions, s);
    if !s.working && s.receiverOpen {
      assert s.accepted[..|s.accepted|] == s.accepted && s.mappings[..|s.mappings|] == s.mappings;
    }
  }

  lemma SpawnedInv()
    ensures Inv(SPAWNED)
  {
  }

  /** The requests that callers tried to send, in order. */
  function Enqueued(actions: seq<Action>): seq<Request> {
    if actions == [] then []
    else (if actions[0].Enqueue? then [actions[0].req] else []) + Enqueued(actions[1..])
  }

  /** The sender has not been dropped and the worker has not left. */
  predicate Alive(s: State) {
    s.senderOpen && s.working
  }

  /** A channel that has hung up stays so. */
  lemma StaysClosed(a: Action, s: State)
    requires Enabled(a, s) && !Alive(s)
    ensures !Alive(Next(a, s)) && Next(a, s).accepted == s.accepted
  {
    hide Process;
  }

  lemma {:induction false} ClosedAcceptsNothing(start: State, actions: seq<Action>, s: State)
    requires Reaches(start, actions, s) && !Alive(start)
    ensures !Alive(s) && s.accepted == start.accepted
    decreases |actions|
  {
    hide Next;
    if actions != [] {
      StaysClosed(actions[0], start);
      ClosedAcceptsNothing(Next(actions[0], start), actions[1..], s);
    }
  }

  lemma AcceptStep(a: Action, s: State)
    requires Enabled(a, s) && Alive(s)
    ensures Next(a, s).accepted == s.accepted + if a.Enqueue? then [a.req] else []
  {
    hide Process;
    assert s.accepted + [] == s.accepted;
  }

  /** Everything enqueued while the sender is open and the worker alive is accepted, in
      order; nothing is accepted afterwards. */
  lemma {:induction false} AcceptedInOrder(start: State, actions: seq<Action>, s: State)
    requires Reaches(start, actions, s)
    ensures Alive(s) ==> s.accepted == start.accepted + Enqueued(actions)
    ensures start.accepted <= s.accepted <= start.accepted + Enqueued(actions)
    decreases |actions|
  {
    hide Next;
    if actions == [] {
      assert start.accepted + [] == start.accepted;
    } else {
      var next := Next(actions[0], start);
      if Alive(start) {
        AcceptStep(actions[0], start);
        AcceptedInOrder(next, actions[1..], s);
        var first := if actions[0].Enqueue? then [actions[0].req] else [];
        assert (start.accepted + first) + Enqueued(actions[1..]) == start.accepted + (first + Enqueued(actions[1..]));
      } else {
        ClosedAcceptsNothing(start, actions, s);
      }
    }
  }

  /** Positions of the requests that yield a result. */
  function Sources(reqs: seq<Request>, mappings: seq<bool>): seq<nat>
    requires |reqs| == |mappings|
  {
    if reqs == [] then []
    else
      var n := |reqs| - 1;
      Sources(reqs[..n], mappings[..n]) + if Process(reqs[n]).Some? && mappings[n] then [n] else []
  }

  /** Each result comes from the request at its source position. */
  lemma {:induction false} SourcesMatch(reqs: seq<Request>, mappings: seq<bool>)
    requires |reqs| == |mappings|
    ensures var at, out := Sources(reqs, mappings), Outputs(reqs, mappings);
            |at| == |out| && forall j :: 0 <= j < |at| ==>
              at[j] < |reqs| && [out[j]] == Output(reqs[at[j]], mappings[at[j]])
    decreases |reqs|
  {
    hide Process;
    if reqs != [] {
      var n := |reqs| - 1;
      SourcesMatch(reqs[..n], mappings[..n]);
      var before, at, out := Sources(reqs[..n], mappings[..n]), Sources(reqs, mappings), Outputs(reqs, mappings);
      forall j | 0 <= j < |at|
        ensures at[j] < |reqs| && [out[j]] == Output(reqs[at[j]], mappings[at[j]])
      {
        if j < |before| {
          assert at[j] == before[j] && reqs[..n][before[j]] == reqs[at[j]];
        }
      }
    }
  }

  lemma {:induction false} SourcesIncrease(reqs: seq<Request>, mappings: seq<bool>)
    requires |reqs| == |mappings|
    ensures forall j :: 0 <= j < |Sources(reqs, mappings)| ==> Sources(reqs, mappings)[j] < |reqs|
    ensures forall i, j :: 0 <= i < j < |Sources(reqs, mappings)| ==> Sources(reqs, mappings)[i] < Sources(reqs, mappings)[j]
    decreases |reqs|
  {
    hide Process;
    if reqs != [] {
      var n := |reqs| - 1;
      SourcesIncrease(reqs[..n], mappings[..n]);
      var before, at := Sources(reqs[..n], mappings[..n]), Sources(reqs, mappings);
      assert forall j :: 0 <= j < |before| ==> before[j] < n;
      forall i, j | 0 <= i < j < |at|
        ensures at[i] < at[j]
      {
        assert at[i] == before[i];
      }
    } else {
      assert Sources(reqs, mappings) == [];
    }
  }

  lemma {:induction false} SourcesComplete(reqs: seq<Request>, mappings: seq<bool>, i: nat)
    requires |reqs| == |mappings| && i < |reqs| && Process(reqs[i]).Some? && mappings[i]
    ensures i in Sources(reqs, mappings)
    decreases |reqs|
  {
    hide Process;
    var n := |reqs| - 1;
    if i < n {
      SourcesComplete(reqs[..n], mappings[..n], i);
    }
  }

  /** One result per successful request, in request order, none twice, none missing. */
  lemma OutputsInOrder(reqs: seq<Request>, mappings: seq<bool>)
    requires |reqs| == |mappings|
    ensures var at, out := Sources(reqs, mappings), Outputs(reqs, mappings);
            && |at| == |out|
            && (forall j :: 0 <= j < |at| ==>
                  at[j] < |reqs| && [out[j]] == Output(reqs[at[j]], mappings[at[j]]))
            && (forall i, j :: 0 <= i < j < |at| ==> at[i] < at[j])
            && (forall i :: 0 <= i < |reqs| && Process(reqs[i]).Some? && mappings[i] ==> i in at)
  {
    hide Process, Sources, Outputs, Output;
    SourcesMatch(reqs, mappings);
    SourcesIncrease(reqs, mappings);
    forall i | 0 <= i < |reqs| && Process(reqs[i]).Some? && mappings[i]
      ensures i in Sources(reqs, mappings)
    {
      SourcesComplete(reqs, mappings, i);
    }
  }

  /** The worker is never stuck: with a request queued, or none and the sender gone, it can act. */
  lemma WorkerNeverStuck(s: State, mapped: bool)
    requires s.working && (s.queue != [] || !s.senderOpen)
    ensures Enabled(if s.queue != [] then Receive(mapped) else WorkerLeaves, s)
  {
  }

  /** After the sender is dropped the worker can always leave, whatever the host maps and
      whether or not results are still wanted; if they are, everything queued is received. */
  lemma {:induction false} DropCompletes(s: State, maps: seq<bool>) returns (actions: seq<Action>, end: State)
    requires Inv(s) && s.working && !s.senderOpen && |maps| == |s.queue|
    ensures Reaches(s, actions, end) && !end.working && end.receiverOpen == s.receiverOpen
    ensures end.accepted == s.accepted && end.mappings <= s.mappings + maps
    ensures s.receiverOpen ==> end.mappings == s.mappings + maps
    decreases |s.queue|
  {
    hide Inv, Process;
    if s.queue == [] {
      end := Next(WorkerLeaves, s);
      actions := [WorkerLeaves];
      assert actions[1..] == [];
    } else {
      var first := Receive(maps[0]);
      InvStep(first, s);
      ReceivedResults(s.queue[0], maps[0], s);
      var next := Next(first, s);
      assert (s.mappings + [maps[0]]) + maps[1..] == s.mappings + maps;
      if next.working {
        var rest;
        rest, end := DropCompletes(next, maps[1..]);
        actions := [first] + rest;
        assert actions[1..] == rest;
      } else {
        end := next;
        actions := [first];
        assert actions[1..] == [];
      }
    }
  }
}
