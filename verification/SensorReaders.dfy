/** `mysensor_read` called by any number of processes while the chain from device to ring runs
    underneath: a blocking read waits until the ring is not empty and then pops, in two
    separate critical sections; a non-blocking read pops at once.
 */
module SensorReaders {
  import B = BellDriver
  import W = WakeProtocol
  import C = SensorChain
  import R = DropRing
  import opened Wrappers

  /** What a read returns: a sample, -EAGAIN, -EFAULT or -ERESTARTSYS. */
  datatype Outcome = Sample(value: int) | Again | Fault | Interrupted

  /** `Passed`: the wait is over, the pop is still to come. */
  datatype Reader = Away | Waiting | Passed

  /** Process r waits in slot r of the chain's pollers; the slots after those are other pollers.
      `results` are the reads finished so far. */
  datatype State = State(chain: C.Chain, readers: seq<Reader>, results: seq<Outcome>)

  /** `Look` is the test `wait_event_interruptible` makes before it queues the caller. */
  datatype Action =
    | Around(e: C.Event)
    | Look(r: nat) | Wait(r: nat, m: W.Move) | Take(r: nat)
    | TakeAtOnce(r: nat)

  /** Every reader has its slot. */
  predicate Slotted(s: State) { |s.readers| <= |s.chain.pollers| }

  function Init(n: nat): State {
    State(C.Init().(pollers := seq(n, _ => W.Away)), seq(n, _ => Away), [])
  }

  /** A pop, and what the read returns when it finds the ring empty. */
  function Pop(s: State, r: nat, empty: Outcome): State
    requires r < |s.readers|
  {
    var q := s.chain.ring.q;
    State(C.Step(s.chain, C.Read), s.readers[r := Away], s.results + [if q == [] then empty else Sample(q[0])])
  }

  function WaitStep(s: State, r: nat, m: W.Move): State
    requires r < |s.readers| <= |s.chain.pollers|
  {
    var p, s' := s.chain.pollers[r], s.(chain := C.Step(s.chain, C.Poll(r, m)));
    if m.Test? && p.Registered? && C.Readable(s.chain) then s'.(readers := s.readers[r := Passed])
    else if m.Leave? && p.Tested? then s'.(readers := s.readers[r := Away], results := s.results + [Interrupted])
    else s'
  }

  /** Pops are made by readers, and a reader's slot is its own. */
  predicate Allowed(s: State, e: C.Event) { !e.Read? && (e.Poll? ==> e.p >= |s.readers|) }

  function Step(s: State, a: Action): State
    requires Slotted(s)
  {
    match a
    case Around(e) => if Allowed(s, e) then s.(chain := C.Step(s.chain, e)) else s
    case Look(r) =>
      if r < |s.readers| && s.readers[r].Away? then
        s.(readers := s.readers[r := if C.Readable(s.chain) then Passed else Waiting])
      else s
    case Wait(r, m) => if r < |s.readers| && s.readers[r].Waiting? then WaitStep(s, r, m) else s
    case Take(r) => if r < |s.readers| && s.readers[r].Passed? then Pop(s, r, Fault) else s
    case TakeAtOnce(r) => if r < |s.readers| && s.readers[r].Away? then Pop(s, r, Again) else s
  }

  /** What the chain sees of an action. */
  function Shadow(s: State, a: Action): seq<C.Event>
    requires Slotted(s)
  {
    match a
    case Around(e) => if Allowed(s, e) then [e] else []
    case Look(r) => []
    case Wait(r, m) => if r < |s.readers| && s.readers[r].Waiting? then [C.Poll(r, m)] else []
    case Take(r) => if r < |s.readers| && s.readers[r].Passed? then [C.Read] else []
    case TakeAtOnce(r) => if r < |s.readers| && s.readers[r].Away? then [C.Read] else []
  }

  lemma StepIsChainStep(s: State, a: Action)
    requires Slotted(s)
    ensures var es := Shadow(s, a);
            Step(s, a).chain == if es == [] then s.chain else C.Step(s.chain, es[0])
  {
  }

  lemma StepKeepsSlots(s: State, a: Action)
    requires Slotted(s)
    ensures Slotted(Step(s, a)) && |Step(s, a).readers| == |s.readers|
  {
  }

  /** From any state, any sequence of actions. */
  function RunFrom(s: State, acts: seq<Action>): (t: State)
    requires Slotted(s)
    ensures Slotted(t) && |t.readers| == |s.readers|
    decreases |acts|
  {
    if acts == [] then s
    else
      StepKeepsSlots(s, acts[0]);
      RunFrom(Step(s, acts[0]), acts[1..])
  }

  /** From the start, with n reading processes. */
  function Run(n: nat, acts: seq<Action>): (t: State)
    ensures Slotted(t) && |t.readers| == n
  {
    RunFrom(Init(n), acts)
  }

  ghost predicate IsChainRun(c: C.Chain) { exists events :: c == C.Run(events) }

  lemma ChainRunSnoc(c: C.Chain, e: C.Event)
    requires IsChainRun(c)
    ensures IsChainRun(C.Step(c, e))
  {
    var events :| c == C.Run(events);
    assert (events + [e])[..|events|] == events;
    assert C.Run(events + [e]) == C.Step(c, e);
  }

  lemma {:induction false} InitIsChainRun(n: nat)
    ensures IsChainRun(Init(n).chain)
  {
    if n == 0 {
      assert Init(0).chain == C.Run([]);
    } else {
      InitIsChainRun(n - 1);
      ChainRunSnoc(Init(n - 1).chain, C.Join);
      assert Init(n).chain.pollers == Init(n - 1).chain.pollers + [W.Away];
    }
  }

  lemma {:induction false} StaysChainRun(s: State, acts: seq<Action>)
    requires Slotted(s) && IsChainRun(s.chain)
    ensures IsChainRun(RunFrom(s, acts).chain)
    decreases |acts|
  {
    if acts != [] {
      StepKeepsSlots(s, acts[0]);
      StepIsChainStep(s, acts[0]);
      if Shadow(s, acts[0]) != [] {
        ChainRunSnoc(s.chain, Shadow(s, acts[0])[0]);
      }
      StaysChainRun(Step(s, acts[0]), acts[1..]);
    }
  }

  /** Whatever the processes do, what they do to the device, the ring and the wait queue is a
      run of the chain, so everything proved about those runs holds here. */
  lemma ReadersRefineChain(n: nat, acts: seq<Action>)
    ensures IsChainRun(Run(n, acts).chain)
  {
    InitIsChainRun(n);
    StaysChainRun(Init(n), acts);
  }

  /** The samples among the outcomes, in order. */
  function Samples(results: seq<Outcome>): seq<int> {
    if results == [] then []
    else
      var last := results[|results| - 1];
      Samples(results[..|results| - 1]) + if last.Sample? then [last.value] else []
  }

  lemma SamplesSnoc(results: seq<Outcome>, o: Outcome)
    ensures Samples(results + [o]) == Samples(results) + if o.Sample? then [o.value] else []
  {
    assert (results + [o])[..|results|] == results;
  }

  predicate Matched(s: State) { Samples(s.results) == R.Records(s.chain.ring.results) }

  lemma PopMatches(s: State, r: nat, empty: Outcome)
    requires Matched(s) && r < |s.readers| && !empty.Sample?
    ensures Matched(Pop(s, r, empty))
  {
    var q := s.chain.ring.q;
    SamplesSnoc(s.results, if q == [] then empty else Sample(q[0]));
    R.RecordsSnoc(s.chain.ring.results, if q == [] then None else Some(q[0]));
  }

  lemma OnlyReadPops(c: C.Chain, e: C.Event)
    requires !e.Read?
    ensures C.Step(c, e).ring.results == c.ring.results
  {
  }

  lemma OthersMatch(s: State, a: Action)
    requires Slotted(s) && Matched(s) && !a.Take? && !a.TakeAtOnce?
    ensures Matched(Step(s, a))
  {
    match a
    case Around(e) =>
      if Allowed(s, e) {
        OnlyReadPops(s.chain, e);
      }
    case Wait(r, m) =>
      OnlyReadPops(s.chain, C.Poll(r, m));
      SamplesSnoc(s.results, Interrupted);
    case _ =>
  }

  lemma {:induction false} StaysMatched(s: State, acts: seq<Action>)
    requires Slotted(s) && Matched(s)
    ensures Matched(RunFrom(s, acts))
    decreases |acts|
  {
    if acts != [] {
      var a := acts[0];
      if Step(s, a) != s {
        match a
        case Take(r) => PopMatches(s, r, Fault);
        case TakeAtOnce(r) => PopMatches(s, r, Again);
        case _ => OthersMatch(s, a);
      }
      StepKeepsSlots(s, a);
      StaysMatched(Step(s, a), acts[1..]);
    }
  }

  /** The samples the processes return, taken together in order, are the records the ring gave
      up: none is lost between the pop and the return, and none is invented. */
  lemma ReadersReturnRecords(n: nat, acts: seq<Action>)
    ensures Samples(Run(n, acts).results) == R.Records(Run(n, acts).chain.ring.results)
  {
    StaysMatched(Init(n), acts);
  }

  // ---------------------------------------------------------------- reads past their wait

  /** Reads that have been told there is a sample and have not popped yet. */
  function Passing(readers: seq<Reader>): set<nat> {
    set r: nat | r < |readers| && readers[r].Passed?
  }

  /** No further read starts or passes its wait. */
  predicate OnlyFinishing(acts: seq<Action>) {
    forall i :: 0 <= i < |acts| ==> acts[i].Around? || acts[i].Take?
  }

  ghost predicate NoneFaults(s: State)
    requires Slotted(s)
  {
    forall acts :: OnlyFinishing(acts) ==> Faults(RunFrom(s, acts).results) == Faults(s.results)
  }

  function Faults(results: seq<Outcome>): nat { multiset(results)[Fault] }

  lemma FaultsSnoc(results: seq<Outcome>, o: Outcome)
    ensures Faults(results + [o]) == Faults(results) + if o == Fault then 1 else 0
  {
  }

  lemma OneLessPassing(readers: seq<Reader>, r: nat)
    requires r < |readers| && readers[r].Passed?
    ensures |Passing(readers[r := Away])| == |Passing(readers)| - 1
  {
    assert Passing(readers[r := Away]) == Passing(readers) - {r};
  }

  /** Nobody around a reader takes samples away: at capacity a push replaces one. */
  lemma AroundKeepsSamples(s: State, e: C.Event)
    requires Slotted(s) && Allowed(s, e)
    ensures |C.Step(s.chain, e).ring.q| >= |s.chain.ring.q|
  {
  }

  lemma FinishingStep(s: State, a: Action)
    requires Slotted(s) && |Passing(s.readers)| <= |s.chain.ring.q| && (a.Around? || a.Take?)
    ensures |Passing(Step(s, a).readers)| <= |Step(s, a).chain.ring.q|
    ensures Faults(Step(s, a).results) == Faults(s.results)
  {
    if a.Around? && Allowed(s, a.e) {
      AroundKeepsSamples(s, a.e);
    } else if a.Take? && a.r < |s.readers| && s.readers[a.r].Passed? {
      OneLessPassing(s.readers, a.r);
      assert a.r in Passing(s.readers);
      FaultsSnoc(s.results, Sample(s.chain.ring.q[0]));
    }
  }

  lemma {:induction false} EnoughForAll(s: State, acts: seq<Action>)
    requires Slotted(s) && |Passing(s.readers)| <= |s.chain.ring.q| && OnlyFinishing(acts)
    ensures Faults(RunFrom(s, acts).results) == Faults(s.results)
    decreases |acts|
  {
    if acts != [] {
      FinishingStep(s, acts[0]);
      StepKeepsSlots(s, acts[0]);
      EnoughForAll(Step(s, acts[0]), acts[1..]);
    }
  }

  lemma TakeOne(s: State, r: nat)
    requires Slotted(s) && r in Passing(s.readers)
    ensures var s' := Step(s, Take(r));
            && Slotted(s') && |Passing(s'.readers)| == |Passing(s.readers)| - 1
            && s'.chain.ring.q == (if s.chain.ring.q == [] then [] else s.chain.ring.q[1..])
            && Faults(s'.results) == Faults(s.results) + if s.chain.ring.q == [] then 1 else 0
  {
    StepKeepsSlots(s, Take(r));
    OneLessPassing(s.readers, r);
    FaultsSnoc(s.results, if s.chain.ring.q == [] then Fault else Sample(s.chain.ring.q[0]));
  }

  /** Letting them pop one after the other uses the samples up. */
  lemma {:induction false} TooFewForAll(s: State)
    requires Slotted(s) && |Passing(s.readers)| > |s.chain.ring.q|
    ensures exists acts :: OnlyFinishing(acts) && Faults(RunFrom(s, acts).results) > Faults(s.results)
    decreases |s.chain.ring.q|
  {
    var r :| r in Passing(s.readers);
    var s' := Step(s, Take(r));
    TakeOne(s, r);
    if s.chain.ring.q == [] {
      assert [Take(r)][1..] == [];
      assert RunFrom(s, [Take(r)]) == s' && OnlyFinishing([Take(r)]);
    } else {
      TooFewForAll(s');
      var rest :| OnlyFinishing(rest) && Faults(RunFrom(s', rest).results) > Faults(s'.results);
      var acts := [Take(r)] + rest;
      assert acts[1..] == rest && OnlyFinishing(acts);
      assert RunFrom(s, acts) == RunFrom(s', rest);
    }
  }

  /** In every state: the reads past their wait will all return a sample, whatever the device
      and the pollers do meanwhile, if and only if there are no more of them than samples. */
  lemma PassedReadsSucceedIff(s: State)
    requires Slotted(s)
    ensures NoneFaults(s) <==> |Passing(s.readers)| <= |s.chain.ring.q|
  {
    if |Passing(s.readers)| <= |s.chain.ring.q| {
      forall acts | OnlyFinishing(acts) ensures Faults(RunFrom(s, acts).results) == Faults(s.results) {
        EnoughForAll(s, acts);
      }
    } else {
      TooFewForAll(s);
    }
  }

  // ---------------------------------------------------------------- how many processes may read

  /** Whoever has passed the wait will find a sample. */
  predicate Assured(readers: seq<Reader>, c: C.Chain) { Passed in readers ==> C.Readable(c) }

  lemma AlonePops(s: State, r: nat, empty: Outcome)
    requires |s.readers| <= 1 && r < |s.readers| && (empty == Fault ==> C.Readable(s.chain))
    ensures Passed !in Pop(s, r, empty).readers && Faults(Pop(s, r, empty).results) == Faults(s.results)
  {
    var q := s.chain.ring.q;
    FaultsSnoc(s.results, if q == [] then empty else Sample(q[0]));
  }

  lemma AloneWaits(s: State, r: nat, m: W.Move)
    requires |s.readers| <= 1 && r < |s.readers| <= |s.chain.pollers| && s.readers[r].Waiting?
    ensures var s' := WaitStep(s, r, m);
            Assured(s'.readers, s'.chain) && Faults(s'.results) == Faults(s.results)
  {
    FaultsSnoc(s.results, Interrupted);
  }

  lemma AloneStep(s: State, a: Action)
    requires Slotted(s) && |s.readers| <= 1 && Assured(s.readers, s.chain)
    ensures Assured(Step(s, a).readers, Step(s, a).chain)
    ensures Faults(Step(s, a).results) == Faults(s.results)
  {
    if Step(s, a) != s {
      match a
      case Around(e) => AroundKeepsSamples(s, e);
      case Look(r) =>
      case Wait(r, m) => AloneWaits(s, r, m);
      case Take(r) => AlonePops(s, r, Fault);
      case TakeAtOnce(r) => AlonePops(s, r, Again);
    }
  }

  lemma {:induction false} AloneNeverFaults(s: State, acts: seq<Action>)
    requires Slotted(s) && |s.readers| <= 1 && Assured(s.readers, s.chain)
    ensures Faults(RunFrom(s, acts).results) == Faults(s.results)
    decreases |acts|
  {
    if acts != [] {
      AloneStep(s, acts[0]);
      StepKeepsSlots(s, acts[0]);
      AloneNeverFaults(Step(s, acts[0]), acts[1..]);
    }
  }

  lemma {:induction false} RunTwice(s: State, a: seq<Action>, b: seq<Action>)
    requires Slotted(s)
    ensures RunFrom(s, a + b) == RunFrom(RunFrom(s, a), b)
    decreases |a|
  {
    if a == [] {
      assert a + b == b;
    } else {
      StepKeepsSlots(s, a[0]);
      assert (a + b)[1..] == a[1..] + b;
      RunTwice(Step(s, a[0]), a[1..], b);
    }
  }

  lemma RunCons(s: State, a: Action, acts: seq<Action>)
    requires Slotted(s)
    ensures Slotted(Step(s, a)) && RunFrom(s, [a] + acts) == RunFrom(Step(s, a), acts)
  {
    StepKeepsSlots(s, a);
    assert ([a] + acts)[1..] == acts;
  }

  lemma RunTwo(s: State, a: Action, b: Action)
    requires Slotted(s)
    ensures Slotted(Step(s, a)) && RunFrom(s, [a] + ([b] + [])) == Step(Step(s, a), b)
  {
    RunCons(s, a, [b] + []);
    RunCons(Step(s, a), b, []);
  }

  const BOTH_LOOK: seq<Action> := [Look(0)] + ([Look(1)] + [])

  const BOTH_TAKE: seq<Action> := [Take(0)] + ([Take(1)] + [])

  lemma BothPass(s: State)
    requires Slotted(s) && |s.readers| >= 2 && s.readers[0].Away? && s.readers[1].Away? && C.Readable(s.chain)
    ensures RunFrom(s, BOTH_LOOK) == s.(readers := s.readers[0 := Passed][1 := Passed])
  {
    RunTwo(s, Look(0), Look(1));
  }

  lemma OneIsLate(s: State)
    requires Slotted(s) && |s.readers| >= 2 && s.readers[0].Passed? && s.readers[1].Passed? && |s.chain.ring.q| == 1
    ensures RunFrom(s, BOTH_TAKE).results == s.results + [Sample(s.chain.ring.q[0])] + [Fault]
  {
    RunTwo(s, Take(0), Take(1));
    assert Step(s, Take(0)).chain.ring.q == [];
  }

  /** Two processes and one sample: both are told it is there, the slower one gets -EFAULT. */
  lemma TwoReadersOneSample(s: State)
    requires Slotted(s) && |s.readers| >= 2 && s.readers[0].Away? && s.readers[1].Away? && |s.chain.ring.q| == 1
    ensures RunFrom(s, BOTH_LOOK + BOTH_TAKE).results == s.results + [Sample(s.chain.ring.q[0])] + [Fault]
  {
    BothPass(s);
    RunTwice(s, BOTH_LOOK, BOTH_TAKE);
    OneIsLate(RunFrom(s, BOTH_LOOK));
  }

  function Irqs(acts: seq<B.Action>): (r: seq<Action>)
    ensures |r| == |acts| && forall i :: 0 <= i < |acts| ==> r[i] == Around(C.Irq(acts[i]))
  {
    seq(|acts|, i requires 0 <= i < |acts| => Around(C.Irq(acts[i])))
  }

  /** Steps of the interrupt core and the thread before the push. */
  predicate BeforePush(acts: seq<B.Action>) {
    forall i :: 0 <= i < |acts| ==> !acts[i].ThHandle? && !acts[i].ThReturn? && !acts[i].Remove?
  }

  /** They leave everything but the driver alone. */
  lemma {:induction false} DriverOnly(s: State, acts: seq<B.Action>)
    requires Slotted(s) && BeforePush(acts)
    ensures RunFrom(s, Irqs(acts)) == s.(chain := s.chain.(sys := B.Run(s.chain.sys, acts)))
    decreases |acts|
  {
    if acts != [] {
      var a := acts[0];
      var s' := Step(s, Around(C.Irq(a)));
      assert s' == s.(chain := s.chain.(sys := B.Step(s.chain.sys, a)));
      assert acts == [a] + acts[1..] && Irqs(acts) == [Around(C.Irq(a))] + Irqs(acts[1..]);
      RunCons(s, Around(C.Irq(a)), Irqs(acts[1..]));
      DriverOnly(s', acts[1..]);
      B.RunCat(s.chain.sys, [a], acts[1..]);
      B.RunSnoc(s.chain.sys, [], a);
      assert [] + [a] == [a];
    }
  }

  const INTERRUPT: seq<B.Action> :=
    [B.ProbeRequest] + [B.ProbeEnable] + [B.Timer] + [B.HardEnter] + [B.HardRead]

  const THREAD: seq<B.Action> := [B.ThStatus] + [B.ThCount] + [B.ThIrq]

  /** The driver comes up, the device raises an event and the interrupt wakes the thread. */
  lemma FirstInterrupt()
    ensures B.Run(B.SensorInit(), INTERRUPT).thread.Woken?
  {
    var s := B.SensorInit();
    B.RunSnoc(s, [], B.ProbeRequest);
    assert [] + [B.ProbeRequest] == [B.ProbeRequest];
    B.RunSnoc(s, [B.ProbeRequest], B.ProbeEnable);
    B.RunSnoc(s, [B.ProbeRequest] + [B.ProbeEnable], B.Timer);
    B.RunTwo(s, [B.ProbeRequest] + [B.ProbeEnable] + [B.Timer], B.HardEnter, B.HardRead);
  }

  lemma ThreadReadsAll(s: B.Sys)
    requires s.thread.Woken?
    ensures B.Run(s, THREAD).thread.HaveIrq?
  {
    B.RunSnoc(s, [], B.ThStatus);
    assert [] + [B.ThStatus] == [B.ThStatus];
    B.RunTwo(s, [B.ThStatus], B.ThCount, B.ThIrq);
  }

  /** Up to the first push, and the push. */
  const FIRST_SAMPLE: seq<Action> := Irqs(INTERRUPT + THREAD) + [Around(C.Irq(B.ThHandle))]

  lemma FirstSample(s: State)
    requires Slotted(s) && s.chain.sys == B.SensorInit() && s.chain.ring.q == []
    ensures var t := RunFrom(s, FIRST_SAMPLE);
            |t.chain.ring.q| == 1 && t.readers == s.readers && t.results == s.results
  {
    FirstInterrupt();
    B.RunCat(B.SensorInit(), INTERRUPT, THREAD);
    ThreadReadsAll(B.Run(B.SensorInit(), INTERRUPT));
    DriverOnly(s, INTERRUPT + THREAD);
    var t := RunFrom(s, Irqs(INTERRUPT + THREAD));
    RunTwice(s, Irqs(INTERRUPT + THREAD), [Around(C.Irq(B.ThHandle))]);
    RunCons(t, Around(C.Irq(B.ThHandle)), []);
    assert [Around(C.Irq(B.ThHandle))] + [] == [Around(C.Irq(B.ThHandle))];
  }

  lemma TwoCanFault(n: nat)
    requires n >= 2
    ensures Faults(Run(n, FIRST_SAMPLE + (BOTH_LOOK + BOTH_TAKE)).results) == 1
  {
    FirstSample(Init(n));
    RunTwice(Init(n), FIRST_SAMPLE, BOTH_LOOK + BOTH_TAKE);
    TwoReadersOneSample(RunFrom(Init(n), FIRST_SAMPLE));
  }

  /** In no run of n processes does a read return -EFAULT. */
  ghost predicate FaultFree(n: nat) {
    forall acts :: Faults(Run(n, acts).results) == 0
  }

  /** A read that is not interrupted always returns a sample (or -EAGAIN, if it asked not to
      wait) if and only if at most one process reads. */
  lemma FaultFreeIffAlone(n: nat)
    ensures FaultFree(n) <==> n <= 1
  {
    if n <= 1 {
      forall acts ensures Faults(Run(n, acts).results) == 0 {
        AloneNeverFaults(Init(n), acts);
      }
    } else {
      TwoCanFault(n);
    }
  }
}
