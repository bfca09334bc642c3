/** What reads of practice/mysensor return, call by call in every run, and delivery end to end:
    an event pending on the device becomes the result of the process that sleeps for it.
 */
module SensorDelivery {
  import B = BellDriver
  import W = WakeProtocol
  import C = SensorChain
  import P = SensorProgress
  import R = DropRing
  import opened SensorReaders

  /** A read that ends by popping: the oldest sample, or `empty` if there is none; the sample is
      gone from the ring and the process is free again. */
  ghost predicate Returns(s: State, t: State, r: nat, empty: Outcome) {
    var q := s.chain.ring.q;
    && r < |s.readers| && t.readers == s.readers[r := Away]
    && t.results == s.results + [if q == [] then empty else Sample(q[0])]
    && t.chain.ring.q == if q == [] then [] else q[1..]
  }

  lemma PopReturns(s: State, r: nat, empty: Outcome)
    requires r < |s.readers|
    ensures Returns(s, Pop(s, r, empty), r, empty)
  {
  }

  /** A read that does not wait: a sample, or -EAGAIN exactly if there is none. */
  lemma AtOnceReturns(s: State, r: nat)
    requires Slotted(s) && r < |s.readers| && s.readers[r].Away?
    ensures Returns(s, Step(s, TakeAtOnce(r)), r, Again)
  {
    PopReturns(s, r, Again);
  }

  /** A read that finds a sample at first sight. */
  lemma LookReturns(s: State, r: nat)
    requires Slotted(s) && r < |s.readers| && s.readers[r].Away? && C.Readable(s.chain)
    ensures Slotted(Step(s, Look(r))) && Returns(s, Step(Step(s, Look(r)), Take(r)), r, Fault)
  {
    var s1 := Step(s, Look(r));
    assert s1 == s.(readers := s.readers[r := Passed]);
    PopReturns(s1, r, Fault);
    assert s.readers[r := Passed][r := Away] == s.readers[r := Away];
  }

  /** A move of a waiting process that neither passes nor gives up. */
  lemma WaitMoves(s: State, r: nat, m: W.Move, p: W.Poller)
    requires Slotted(s) && r < |s.readers| && s.readers[r].Waiting? && !C.Readable(s.chain) && !m.Leave?
    requires p == W.PollStep(C.SOURCE_ORDER, false, s.chain.pollers[r], m)
    ensures Step(s, Wait(r, m)) == s.(chain := s.chain.(pollers := s.chain.pollers[r := p]))
  {
  }

  lemma LookQueues(s: State, r: nat)
    requires Slotted(s) && r < |s.readers| && s.readers[r].Away? && s.chain.pollers[r].Away? && !C.Readable(s.chain)
    ensures RunFrom(s, [Look(r)] + ([Wait(r, W.Register)] + [])) ==
            s.(readers := s.readers[r := Waiting],
               chain := s.chain.(pollers := s.chain.pollers[r := W.Registered(false)]))
  {
    RunTwo(s, Look(r), Wait(r, W.Register));
    WaitMoves(s.(readers := s.readers[r := Waiting]), r, W.Register, W.Registered(false));
  }

  lemma QueuedSleeps(s: State, r: nat)
    requires Slotted(s) && r < |s.readers| && s.readers[r].Waiting?
    requires s.chain.pollers[r] == W.Registered(false) && !C.Readable(s.chain)
    ensures RunFrom(s, [Wait(r, W.Test)] + ([Wait(r, W.Sleep)] + [])) ==
            s.(chain := s.chain.(pollers := s.chain.pollers[r := W.Asleep]))
  {
    RunTwo(s, Wait(r, W.Test), Wait(r, W.Sleep));
    WaitMoves(s, r, W.Test, W.Tested(false));
    var s1 := s.(chain := s.chain.(pollers := s.chain.pollers[r := W.Tested(false)]));
    WaitMoves(s1, r, W.Sleep, W.Asleep);
  }

  /** A read that finds none queues up and sleeps. */
  lemma LookSleeps(s: State, r: nat)
    requires Slotted(s) && r < |s.readers| && s.readers[r].Away? && s.chain.pollers[r].Away? && !C.Readable(s.chain)
    ensures RunFrom(s, ([Look(r)] + ([Wait(r, W.Register)] + [])) + ([Wait(r, W.Test)] + ([Wait(r, W.Sleep)] + []))) ==
            s.(readers := s.readers[r := Waiting], chain := s.chain.(pollers := s.chain.pollers[r := W.Asleep]))
  {
    LookQueues(s, r);
    QueuedSleeps(RunFrom(s, [Look(r)] + ([Wait(r, W.Register)] + [])), r);
    RunTwice(s, [Look(r)] + ([Wait(r, W.Register)] + []), [Wait(r, W.Test)] + ([Wait(r, W.Sleep)] + []));
  }

  /** A waiting process that is up and finds a sample. */
  lemma WaitReturns(s: State, r: nat)
    requires Slotted(s) && r < |s.readers| && s.readers[r].Waiting? && s.chain.pollers[r].Registered?
    requires C.Readable(s.chain)
    ensures Slotted(Step(s, Wait(r, W.Test))) && Returns(s, Step(Step(s, Wait(r, W.Test)), Take(r)), r, Fault)
  {
    var s1 := Step(s, Wait(r, W.Test));
    assert s1.readers == s.readers[r := Passed] && s1.results == s.results && s1.chain.ring == s.chain.ring;
    PopReturns(s1, r, Fault);
    assert s.readers[r := Passed][r := Away] == s.readers[r := Away];
  }

  /** A waiting process that gives up after one more failing test. */
  lemma InterruptReturns(s: State, r: nat)
    requires Slotted(s) && r < |s.readers| && s.readers[r].Waiting? && s.chain.pollers[r].Tested?
    ensures Step(s, Wait(r, W.Leave)) ==
            s.(readers := s.readers[r := Away], results := s.results + [Interrupted],
               chain := s.chain.(pollers := s.chain.pollers[r := W.Away]))
  {
  }

  lemma TestedLeaves(s: State, r: nat)
    requires Slotted(s) && r < |s.readers| && s.readers[r].Waiting? && s.chain.pollers[r] == W.Registered(false)
    requires !C.Readable(s.chain)
    ensures RunFrom(s, [Wait(r, W.Test)] + ([Wait(r, W.Leave)] + [])) ==
            s.(readers := s.readers[r := Away], results := s.results + [Interrupted],
               chain := s.chain.(pollers := s.chain.pollers[r := W.Away]))
  {
    RunTwo(s, Wait(r, W.Test), Wait(r, W.Leave));
    WaitMoves(s, r, W.Test, W.Tested(false));
    InterruptReturns(s.(chain := s.chain.(pollers := s.chain.pollers[r := W.Tested(false)])), r);
    assert s.chain.pollers[r := W.Tested(false)][r := W.Away] == s.chain.pollers[r := W.Away];
  }

  /** A signal gets a sleeping process up; with the ring still empty its read is interrupted. */
  lemma SignalReturns(s: State, r: nat)
    requires Slotted(s) && r < |s.readers| && s.readers[r].Waiting? && s.chain.pollers[r].Asleep?
    requires !C.Readable(s.chain)
    ensures RunFrom(s, [Wait(r, W.Rouse)] + ([Wait(r, W.Test)] + ([Wait(r, W.Leave)] + []))) ==
            s.(readers := s.readers[r := Away], results := s.results + [Interrupted],
               chain := s.chain.(pollers := s.chain.pollers[r := W.Away]))
  {
    var s1 := s.(chain := s.chain.(pollers := s.chain.pollers[r := W.Registered(false)]));
    RunCons(s, Wait(r, W.Rouse), [Wait(r, W.Test)] + ([Wait(r, W.Leave)] + []));
    WaitMoves(s, r, W.Rouse, W.Registered(false));
    TestedLeaves(s1, r);
    assert s1.chain.pollers[r := W.Away] == s.chain.pollers[r := W.Away];
  }

  /** Whoever is not waiting has left the queue. */
  ghost predicate SlotsFree(s: State)
    requires Slotted(s)
  {
    forall r :: 0 <= r < |s.readers| && !s.readers[r].Waiting? ==> s.chain.pollers[r].Away?
  }

  lemma ChainKeepsAway(c: C.Chain, e: C.Event, r: nat)
    requires r < |c.pollers| && c.pollers[r].Away? && !(e.Poll? && e.p == r)
    ensures r < |C.Step(c, e).pollers| && C.Step(c, e).pollers[r].Away?
  {
  }

  lemma WaitFreesSlot(s: State, r: nat, m: W.Move)
    requires Slotted(s) && r < |s.readers| && s.readers[r].Waiting?
    ensures var t := WaitStep(s, r, m);
            && |t.chain.pollers| == |s.chain.pollers|
            && (t.readers[r].Waiting? || t.chain.pollers[r].Away?)
            && forall i :: 0 <= i < |s.readers| && i != r ==>
                 t.readers[i] == s.readers[i] && t.chain.pollers[i] == s.chain.pollers[i]
  {
  }

  lemma StepKeepsSlotsFree(s: State, a: Action)
    requires Slotted(s) && SlotsFree(s)
    ensures Slotted(Step(s, a)) && SlotsFree(Step(s, a))
  {
    StepKeepsSlots(s, a);
    if Step(s, a) != s {
      match a
      case Around(e) =>
        forall r | 0 <= r < |s.readers| && !s.readers[r].Waiting? ensures Step(s, a).chain.pollers[r].Away? {
          ChainKeepsAway(s.chain, e, r);
        }
      case Wait(r, m) => WaitFreesSlot(s, r, m);
      case _ =>
    }
  }

  lemma {:induction false} StaysSlotsFree(s: State, acts: seq<Action>)
    requires Slotted(s) && SlotsFree(s)
    ensures SlotsFree(RunFrom(s, acts))
    decreases |acts|
  {
    if acts != [] {
      StepKeepsSlotsFree(s, acts[0]);
      StaysSlotsFree(Step(s, acts[0]), acts[1..]);
    }
  }

  /** In every run a process that is not in a blocking read is not on the queue, so its next read
      starts afresh. */
  lemma ReadersLeaveQueue(n: nat, acts: seq<Action>, r: nat)
    requires r < n && !Run(n, acts).readers[r].Waiting?
    ensures Run(n, acts).chain.pollers[r].Away?
  {
    StaysSlotsFree(Init(n), acts);
  }

  // ---------------------------------------------------------------- end to end

  /** Turns of the driver and of others, none of which reads or moves a reader. */
  predicate Apart(s: State, sched: seq<P.Turn>) {
    forall i :: 0 <= i < |sched| && sched[i].Other? ==> P.Foreign(sched[i].e) && Allowed(s, sched[i].e)
  }

  function EventOf(c: C.Chain, t: P.Turn): C.Event { if t.Driver? then P.NextOf(c) else t.e }

  /** The same turns as steps around the readers. */
  function Moves(c: C.Chain, sched: seq<P.Turn>): seq<Action>
    decreases |sched|
  {
    if sched == [] then [] else [Around(EventOf(c, sched[0]))] + Moves(P.Take(c, sched[0]), sched[1..])
  }

  lemma {:induction false} MovesDriveChain(s: State, sched: seq<P.Turn>)
    requires Slotted(s) && Apart(s, sched)
    ensures RunFrom(s, Moves(s.chain, sched)) == s.(chain := P.Drive(s.chain, sched))
    decreases |sched|
  {
    if sched != [] {
      var e := EventOf(s.chain, sched[0]);
      var s1 := Step(s, Around(e));
      assert s1 == s.(chain := P.Take(s.chain, sched[0]));
      RunCons(s, Around(e), Moves(P.Take(s.chain, sched[0]), sched[1..]));
      assert Apart(s1, sched[1..]);
      MovesDriveChain(s1, sched[1..]);
    }
  }

  /** Compared with c0: the sleeper in slot r has at most been woken, and the ring has at most
      been pushed to, the next sample first. */
  ghost predicate Follows(c0: C.Chain, c: C.Chain, r: nat) {
    var n := |c0.ring.pushed|;
    && r < |c.pollers| && (c.pollers[r].Asleep? || c.pollers[r].Registered?)
    && |c.ring.pushed| >= n
    && (|c.ring.pushed| == n ==> c.ring == c0.ring)
    && (|c.ring.pushed| == n + 1 ==> c.ring == R.Apply(c0.ring, R.Push(C.Sample(n)), C.CAPACITY))
  }

  lemma StepFollows(c0: C.Chain, c: C.Chain, e: C.Event, r: nat)
    requires C.Inv(c) && Follows(c0, c, r) && !e.Read? && !(e.Poll? && e.p == r)
    ensures Follows(c0, C.Step(c, e), r)
  {
    assert C.Fed(c);
  }

  lemma {:induction false} DriveFollows(c0: C.Chain, s: State, c: C.Chain, sched: seq<P.Turn>, r: nat)
    requires C.Inv(c) && Follows(c0, c, r) && r < |s.readers| && Apart(s, sched)
    ensures Follows(c0, P.Drive(c, sched), r)
    decreases |sched|
  {
    if sched != [] {
      StepFollows(c0, c, EventOf(c, sched[0]), r);
      P.TurnKeepsInv(c, sched[0]);
      assert Apart(s, sched[1..]);
      DriveFollows(c0, s, P.Take(c, sched[0]), sched[1..], r);
    }
  }

  /** Once sample n is announced the sleeper is up, and its own two steps return the oldest
      sample, which is sample n if the ring was empty. */
  lemma AnnouncedReturns(s: State, c: C.Chain, r: nat)
    requires Slotted(s) && r < |s.readers| && s.readers[r].Waiting? && |s.readers| <= |c.pollers|
    requires Follows(s.chain, c, r) && P.Announced(c, |s.chain.ring.pushed|)
    ensures var t := s.(chain := c);
            Returns(t, Step(Step(t, Wait(r, W.Test)), Take(r)), r, Fault)
    ensures c.ring.q == R.Pushed(s.chain.ring.q, C.Sample(|s.chain.ring.pushed|), C.CAPACITY)
  {
    assert !W.Committed(c.pollers[r]);
    WaitReturns(s.(chain := c), r);
  }

  /** What the sleeper's read returns at this point of the schedule. */
  ghost predicate Delivered(s: State, r: nat, sched: seq<P.Turn>)
    requires Slotted(s) && r < |s.readers|
  {
    var t := RunFrom(s, Moves(s.chain, sched) + [Wait(r, W.Test)] + [Take(r)]);
    var next := C.Sample(|s.chain.ring.pushed|);
    && t.readers[r].Away?
    && t.results == s.results + [Sample(R.Pushed(s.chain.ring.q, next, C.CAPACITY)[0])]
    && (s.chain.ring.q == [] ==> t.results == s.results + [Sample(next)])
  }

  lemma DeliveredAt(s: State, r: nat, sched: seq<P.Turn>)
    requires Slotted(s) && r < |s.readers| && s.readers[r].Waiting? && s.chain.pollers[r].Asleep?
    requires C.Inv(s.chain) && Apart(s, sched) && P.Announced(P.Drive(s.chain, sched), |s.chain.ring.pushed|)
    ensures Delivered(s, r, sched)
  {
    var moves := Moves(s.chain, sched);
    DriveFollows(s.chain, s, s.chain, sched, r);
    MovesDriveChain(s, sched);
    var t := RunFrom(s, moves);
    AnnouncedReturns(s, t.chain, r);
    RunTwice(s, moves, [Wait(r, W.Test)]);
    RunTwice(s, moves + [Wait(r, W.Test)], [Take(r)]);
    RunCons(t, Wait(r, W.Test), []);
    RunCons(Step(t, Wait(r, W.Test)), Take(r), []);
    assert [Wait(r, W.Test)] + [] == [Wait(r, W.Test)] && [Take(r)] + [] == [Take(r)];
  }

  /** From every reachable state of any number of processes, on an enabled device: while one
      sleeps in a blocking read and the others do not read, a pending event becomes a sample
      and wakes it within ten driver turns, with any ticks and polls in between; its read then
      returns the oldest sample, which is that of the event if the ring was empty. */
  lemma {:induction false} SleeperGetsSample(n: nat, acts: seq<Action>, r: nat, sched: seq<P.Turn>)
    requires r < n && Run(n, acts).readers[r].Waiting? && Run(n, acts).chain.pollers[r].Asleep?
    requires Run(n, acts).chain.sys.probe.Enabled? && B.Uncounted(Run(n, acts).chain.sys)
    requires P.DriverTurns(sched) >= 10 && Apart(Run(n, acts), sched)
    ensures exists k ::
              0 <= k <= |sched| && P.DriverTurns(sched[..k]) <= 10 && Delivered(Run(n, acts), r, sched[..k])
  {
    var s := Run(n, acts);
    ReadersRefineChain(n, acts);
    var events :| s.chain == C.Run(events);
    C.RunKeepsInv(events);
    P.PendingEventReachesReaders(events, sched);
    var k :| 0 <= k <= |sched| && P.DriverTurns(sched[..k]) <= 10
             && P.Announced(P.Drive(s.chain, sched[..k]), |s.chain.ring.pushed|);
    DeliveredAt(s, r, sched[..k]);
  }
}
