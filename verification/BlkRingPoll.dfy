/** The byte ring of practice/myblkdev with `myblkpoll` on top: the producer wakes the queue
    after it has published and unlocked, and any number of processes poll for `head != tail`
    while the ring protocol runs underneath, micro-step by micro-step.
 */
module BlkRingPoll {
  import P = BlkRingProtocol
  import H = BlkRingHistory
  import opened BlkRing
  import opened WakeProtocol

  /** `due` counts produce calls that have published and not yet issued their wake-up. */
  datatype Node = Node(ring: P.State, due: nat, pollers: seq<Poller>)

  datatype Event = Ring(a: P.Action) | WakeUp | Join | Move(p: nat, m: Move)

  /** `myblkpoll` registers, then tests; `myblk_produce_data` publishes, then wakes. */
  const SOURCE_ORDER := Order(true, true)

  /** What `myblkpoll` tests. */
  predicate Readable(s: P.State) { s.head != s.tail }

  function Init(size: nat): Node { Node(P.Init(size), 0, []) }

  ghost function Step(n: Node, e: Event): Node
    requires P.InRange(n.ring)
  {
    match e
    case Ring(a) =>
      var ring' := P.Step(n.ring, a);
      Node(ring', if a.Publish? && ring' != n.ring then n.due + 1 else n.due, n.pollers)
    case WakeUp => if n.due > 0 then n.(due := n.due - 1, pollers := SignalAll(n.pollers)) else n
    case Join => n.(pollers := n.pollers + [Away])
    case Move(p, m) =>
      if p < |n.pollers| then
        n.(pollers := n.pollers[p := PollStep(SOURCE_ORDER, Readable(n.ring), n.pollers[p], m)])
      else n
  }

  ghost predicate Inv(n: Node) {
    P.Inv(n.ring) && Attended(Readable(n.ring), n.due > 0, n.pollers)
  }

  lemma RingKeepsAttended(n: Node, a: P.Action)
    requires Inv(n)
    ensures Attended(Readable(Step(n, Ring(a)).ring), Step(n, Ring(a)).due > 0, n.pollers)
  {
    var ring' := P.Step(n.ring, a);
    if Readable(ring') && !Readable(n.ring) {
      P.RaisedByPublish(n.ring, a);
    }
  }

  lemma StepKeepsInv(n: Node, e: Event)
    requires Inv(n)
    ensures Inv(Step(n, e)) && |Step(n, e).ring.data| == |n.ring.data|
  {
    match e
    case Ring(a) =>
      P.StepKeepsInv(n.ring, a);
      RingKeepsAttended(n, a);
    case Move(p, m) =>
      if p < |n.pollers| {
        PollKeepsAttended(SOURCE_ORDER, Readable(n.ring), n.due > 0, n.pollers, p, m);
      }
    case _ =>
  }

  ghost function Run(size: nat, events: seq<Event>): (n: Node)
    requires 0 < size < SIZE_LIMIT
    ensures P.InRange(n.ring) && |n.ring.data| == size
  {
    if events == [] then
      Init(size)
    else
      var n, e := Run(size, events[..|events| - 1]), events[|events| - 1];
      if e.Ring? then
        P.StepKeepsRange(n.ring, e.a);
        Step(n, e)
      else
        Step(n, e)
  }

  lemma {:induction false} RunKeepsInv(size: nat, events: seq<Event>)
    requires 0 < size < SIZE_LIMIT
    ensures Inv(Run(size, events))
  {
    if events == [] {
      P.InitKeepsInv(size);
    } else {
      RunKeepsInv(size, events[..|events| - 1]);
      StepKeepsInv(Run(size, events[..|events| - 1]), events[|events| - 1]);
    }
  }

  lemma SleeperIsAttended(n: Node, p: nat)
    requires P.InRange(n.ring) && Attended(Readable(n.ring), n.due > 0, n.pollers)
    requires p < |n.pollers| && n.pollers[p].Asleep?
    ensures Readable(n.ring) ==> n.due > 0
    ensures n.due > 0 ==> Step(n, WakeUp).pollers[p] == Registered(false)
  {
    assert Committed(n.pollers[p]);
  }

  /** No reachable state of the ring has a poller asleep on unread bytes with no wake-up due;
      and the next wake-up gets every sleeper up. */
  lemma {:induction false} NoPollerIsForgotten(size: nat, events: seq<Event>, p: nat)
    requires 0 < size < SIZE_LIMIT
    ensures var n := Run(size, events);
            p < |n.pollers| && n.pollers[p].Asleep? ==>
              && (Readable(n.ring) ==> n.due > 0)
              && (n.due > 0 ==> Step(n, WakeUp).pollers[p] == Registered(false))
  {
    var n := Run(size, events);
    RunKeepsInv(size, events);
    if p < |n.pollers| && n.pollers[p].Asleep? {
      SleeperIsAttended(n, p);
    }
  }

  lemma {:induction false} RunSnoc(size: nat, events: seq<Event>, e: Event)
    requires 0 < size < SIZE_LIMIT
    ensures Run(size, events + [e]) == Step(Run(size, events), e)
  {
    assert (events + [e])[..|events|] == events;
  }

  /** The three steps of one poll, on a process that joins. */
  lemma PollSteps(n: Node)
    requires P.InRange(n.ring)
    ensures var p := |n.pollers|;
            Step(Step(Step(Step(n, Join), Move(p, Register)), Move(p, Test)), Move(p, Sleep)) ==
            n.(pollers := n.pollers + [if Readable(n.ring) then Away else Asleep])
  {
    var p, cond := |n.pollers|, Readable(n.ring);
    var n1 := Step(n, Join);
    var n2 := Step(n1, Move(p, Register));
    assert n2 == n.(pollers := n.pollers + [Registered(false)]);
    var n3 := Step(n2, Move(p, Test));
    assert n3 == n.(pollers := n.pollers + [if cond then Away else Tested(false)]);
  }

  /** A poll from start to end, in any run: it returns at once if there are unread bytes, and
      sleeps if there are none. */
  lemma {:induction false} PollSleepsIffEmpty(size: nat, events: seq<Event>)
    requires 0 < size < SIZE_LIMIT
    ensures var n := Run(size, events);
            var p := |n.pollers|;
            var polled := events + [Join] + [Move(p, Register)] + [Move(p, Test)] + [Move(p, Sleep)];
            Run(size, polled) == n.(pollers := n.pollers + [if Readable(n.ring) then Away else Asleep])
  {
    var p := |Run(size, events).pollers|;
    PollSteps(Run(size, events));
    RunSnoc(size, events, Join);
    RunSnoc(size, events + [Join], Move(p, Register));
    RunSnoc(size, events + [Join] + [Move(p, Register)], Move(p, Test));
    RunSnoc(size, events + [Join] + [Move(p, Register)] + [Move(p, Test)], Move(p, Sleep));
  }

  lemma SleeperGetsUp(n: Node, p: nat)
    requires P.InRange(n.ring) && n.due > 0 && Readable(n.ring) && p < |n.pollers| && n.pollers[p].Asleep?
    ensures var n' := Step(Step(n, WakeUp), Move(p, Test)); |n'.pollers| == |n.pollers| && n'.pollers[p] == Away
  {
  }

  /** Whoever sleeps on unread bytes has a wake-up due, after which it returns. */
  lemma {:induction false} SleeperReturns(size: nat, events: seq<Event>, p: nat)
    requires 0 < size < SIZE_LIMIT
    requires p < |Run(size, events).pollers| && Run(size, events).pollers[p].Asleep?
    requires Readable(Run(size, events).ring)
    ensures var n, n' := Run(size, events), Run(size, events + [WakeUp] + [Move(p, Test)]);
            n.due > 0 && |n'.pollers| == |n.pollers| && n'.pollers[p] == Away
  {
    NoPollerIsForgotten(size, events, p);
    SleeperGetsUp(Run(size, events), p);
    RunSnoc(size, events, WakeUp);
    RunSnoc(size, events + [WakeUp], Move(p, Test));
  }

  /** Head updates whose wake-up has not been issued, from the events. */
  ghost function Unannounced(size: nat, events: seq<Event>): nat
    requires 0 < size < SIZE_LIMIT
  {
    if events == [] then 0
    else
      var init, e := events[..|events| - 1], events[|events| - 1];
      var before := Unannounced(size, init);
      if e.WakeUp? && before > 0 then before - 1
      else before + if Run(size, events).ring.head != Run(size, init).ring.head then 1 else 0
  }

  lemma HeadMovesByPublish(s: P.State, a: P.Action)
    requires P.Inv(s)
    ensures P.Step(s, a).head != s.head <==> a.Publish? && P.Step(s, a) != s
  {
    if a.Publish? && P.Step(s, a) != s {
      H.PublishMovesHead(s);
    }
  }

  lemma StepOwes(n: Node, e: Event)
    requires P.Inv(n.ring)
    ensures Step(n, e).due ==
            if e.WakeUp? && n.due > 0 then n.due - 1
            else n.due + if Step(n, e).ring.head != n.ring.head then 1 else 0
  {
    if e.Ring? {
      HeadMovesByPublish(n.ring, e.a);
    }
  }

  /** The producer owes exactly one wake-up for every head update. */
  lemma {:induction false} OneWakeUpPerHead(size: nat, events: seq<Event>)
    requires 0 < size < SIZE_LIMIT
    ensures Run(size, events).due == Unannounced(size, events)
  {
    if events != [] {
      OneWakeUpPerHead(size, events[..|events| - 1]);
      RunKeepsInv(size, events[..|events| - 1]);
      StepOwes(Run(size, events[..|events| - 1]), events[|events| - 1]);
    }
  }
}
