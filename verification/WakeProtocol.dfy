/** Poll and wake-up, as the drivers use them: a poller registers on the wait queue, then tests
    its condition, then sleeps; a writer makes the condition true, then wakes the queue, or
    re-tests the condition and skips the wake-up when it finds it false. Any number of pollers
    and writers, any interleaving; readers may make the condition false at any time.

    The two orders are parameters, so that what they buy can be stated exactly.
 */
module WakeProtocol {

  datatype Order = Order(registerFirst: bool, publishFirst: bool)

  /** A writer owes the second half of what it does: the wake-up if it publishes first. */
  datatype Writer = Quiet | Owing

  datatype Poller =
    | Away
    | Peeked                      // tested before registering
    | Registered(signalled: bool) // on the queue, about to test
    | Tested(signalled: bool)     // on the queue, found the condition false
    | Asleep

  datatype State = State(cond: bool, writers: seq<Writer>, pollers: seq<Poller>)

  /** `Rouse`: a signal or a time-out gets a sleeper up; `Leave`: it then gives up, after one more
      test that fails. */
  datatype Move = Register | Test | Sleep | Rouse | Leave

  datatype Action = Publish(w: nat) | Wake(w: nat) | Skip(w: nat) | Lower | Poll(p: nat, move: Move)

  function Init(nw: nat, np: nat): State {
    State(false, seq(nw, _ => Quiet), seq(np, _ => Away))
  }

  /** A wake-up reaches whoever is on the queue; a sleeper gets up to test again. */
  function Signal(p: Poller): Poller {
    match p
    case Registered(_) => Registered(true)
    case Tested(_) => Tested(true)
    case Asleep => Registered(false)
    case _ => p
  }

  function SignalAll(ps: seq<Poller>): (r: seq<Poller>)
    ensures |r| == |ps|
    ensures forall i :: 0 <= i < |ps| ==> r[i] == Signal(ps[i])
  {
    seq(|ps|, i requires 0 <= i < |ps| => Signal(ps[i]))
  }

  function PublishStep(o: Order, s: State, w: nat): State
    requires w < |s.writers|
  {
    if o.publishFirst && s.writers[w].Quiet? then s.(cond := true, writers := s.writers[w := Owing])
    else if !o.publishFirst && s.writers[w].Owing? then s.(cond := true, writers := s.writers[w := Quiet])
    else s
  }

  function WakeStep(o: Order, s: State, w: nat): State
    requires w < |s.writers|
  {
    if o.publishFirst && s.writers[w].Owing? then
      s.(pollers := SignalAll(s.pollers), writers := s.writers[w := Quiet])
    else if !o.publishFirst && s.writers[w].Quiet? then
      s.(pollers := SignalAll(s.pollers), writers := s.writers[w := Owing])
    else s
  }

  function PollStep(o: Order, cond: bool, p: Poller, m: Move): Poller {
    match m
    case Register =>
      if o.registerFirst && p.Away? then Registered(false)
      else if !o.registerFirst && p.Peeked? then Tested(false)
      else p
    case Test =>
      if p.Registered? then (if cond then Away else Tested(p.signalled))
      else if !o.registerFirst && p.Away? then (if cond then Away else Peeked)
      else p
    case Sleep =>
      if p.Tested? then (if p.signalled then Registered(false) else Asleep) else p
    case Rouse => if p.Asleep? then Registered(false) else p
    case Leave => if p.Tested? then Away else p
  }

  function Step(o: Order, s: State, a: Action): State {
    match a
    case Publish(w) => if w < |s.writers| then PublishStep(o, s, w) else s
    case Wake(w) => if w < |s.writers| then WakeStep(o, s, w) else s
    case Skip(w) =>
      if w < |s.writers| && o.publishFirst && s.writers[w].Owing? && !s.cond then
        s.(writers := s.writers[w := Quiet])
      else s
    case Lower => s.(cond := false)
    case Poll(p, m) =>
      if p < |s.pollers| then s.(pollers := s.pollers[p := PollStep(o, s.cond, s.pollers[p], m)]) else s
  }

  function Run(o: Order, nw: nat, np: nat, acts: seq<Action>): State {
    if acts == [] then Init(nw, np) else Step(o, Run(o, nw, np, acts[..|acts| - 1]), acts[|acts| - 1])
  }

  /** Some writer still has a wake-up to issue. */
  ghost predicate WakeToCome(o: Order, s: State) {
    o.publishFirst && exists w :: 0 <= w < |s.writers| && s.writers[w].Owing?
  }

  /** A poller sleeps on a true condition and nobody is going to wake it. */
  ghost predicate Lost(o: Order, s: State) {
    s.cond && !WakeToCome(o, s) && exists p :: 0 <= p < |s.pollers| && s.pollers[p].Asleep?
  }

  /** On its way to sleep, or there: only a wake-up makes it look again. */
  predicate Committed(p: Poller) { p.Asleep? || p == Tested(false) }

  /** If the condition is true and somebody is committed to sleep, a wake-up is owed. */
  ghost predicate Attended(cond: bool, owed: bool, pollers: seq<Poller>) {
    cond && (exists p :: 0 <= p < |pollers| && Committed(pollers[p])) ==> owed
  }

  /** A poller that registers before it tests never gets committed to a true condition. */
  lemma PollKeepsAttended(o: Order, cond: bool, owed: bool, pollers: seq<Poller>, p: nat, m: Move)
    requires o.registerFirst && p < |pollers| && Attended(cond, owed, pollers)
    ensures Attended(cond, owed, pollers[p := PollStep(o, cond, pollers[p], m)])
  {
    var after := pollers[p := PollStep(o, cond, pollers[p], m)];
    if cond {
      assert forall i :: 0 <= i < |pollers| && Committed(after[i]) ==> Committed(pollers[i]);
    }
  }

  ghost predicate Inv(o: Order, s: State) {
    Attended(s.cond, WakeToCome(o, s), s.pollers)
  }

  lemma StepKeepsInv(o: Order, s: State, a: Action)
    requires o.registerFirst && o.publishFirst && Inv(o, s)
    ensures Inv(o, Step(o, s, a))
  {
    match a
    case Publish(w) =>
      if w < |s.writers| && s.writers[w].Quiet? {
        assert Step(o, s, a).writers[w].Owing?;
      }
    case Poll(p, m) =>
      if p < |s.pollers| {
        PollKeepsAttended(o, s.cond, WakeToCome(o, s), s.pollers, p, m);
      }
    case _ =>
  }

  lemma {:induction false} RunKeepsInv(o: Order, nw: nat, np: nat, acts: seq<Action>)
    requires o.registerFirst && o.publishFirst
    ensures Inv(o, Run(o, nw, np, acts))
  {
    if acts != [] {
      RunKeepsInv(o, nw, np, acts[..|acts| - 1]);
      StepKeepsInv(o, Run(o, nw, np, acts[..|acts| - 1]), acts[|acts| - 1]);
    }
  }

  lemma {:induction false} RunSnoc(o: Order, nw: nat, np: nat, acts: seq<Action>, a: Action)
    ensures Run(o, nw, np, acts + [a]) == Step(o, Run(o, nw, np, acts), a)
  {
    assert (acts + [a])[..|acts|] == acts;
  }

  /** The writer publishes and wakes between the poller's test and its registration. */
  lemma TestBeforeRegisterLoses(o: Order)
    requires !o.registerFirst && o.publishFirst
    ensures Lost(o, Run(o, 1, 1, [Poll(0, Test)] + [Publish(0)] + [Wake(0)] + [Poll(0, Register)] + [Poll(0, Sleep)]))
  {
    RunSnoc(o, 1, 1, [], Poll(0, Test));
    assert [] + [Poll(0, Test)] == [Poll(0, Test)];
    RunSnoc(o, 1, 1, [Poll(0, Test)], Publish(0));
    RunSnoc(o, 1, 1, [Poll(0, Test)] + [Publish(0)], Wake(0));
    RunSnoc(o, 1, 1, [Poll(0, Test)] + [Publish(0)] + [Wake(0)], Poll(0, Register));
    RunSnoc(o, 1, 1, [Poll(0, Test)] + [Publish(0)] + [Wake(0)] + [Poll(0, Register)], Poll(0, Sleep));
    var s := Run(o, 1, 1, [Poll(0, Test)] + [Publish(0)] + [Wake(0)] + [Poll(0, Register)] + [Poll(0, Sleep)]);
    assert s == State(true, [Quiet], [Asleep]);
    assert s.pollers[0].Asleep?;
  }

  /** The poller's way onto the queue and past its test, on a false condition. */
  function Entering(o: Order): (Move, Move) {
    if o.registerFirst then (Register, Test) else (Test, Register)
  }

  lemma SpentWakeUp(o: Order)
    requires !o.publishFirst
    ensures var (m1, m2) := Entering(o);
            var s1 := Step(o, Init(1, 1), Wake(0));
            var s2 := Step(o, Step(o, s1, Poll(0, m1)), Poll(0, m2));
            s1 == State(false, [Owing], [Away]) && s2 == State(false, [Owing], [Tested(false)])
  {
    assert Init(1, 1) == State(false, [Quiet], [Away]);
  }

  lemma LatePublication(o: Order)
    requires !o.publishFirst
    ensures Step(o, Step(o, State(false, [Owing], [Tested(false)]), Poll(0, Sleep)), Publish(0)) ==
            State(true, [Quiet], [Asleep])
  {
  }

  /** The writer's wake-up is spent before the poller registers, its publication comes after. */
  lemma WakeBeforePublishLoses(o: Order)
    requires !o.publishFirst
    ensures exists acts :: Lost(o, Run(o, 1, 1, acts))
  {
    var (m1, m2) := Entering(o);
    SpentWakeUp(o);
    LatePublication(o);
    assert Run(o, 1, 1, []) == Init(1, 1);
    RunSnoc(o, 1, 1, [], Wake(0));
    RunSnoc(o, 1, 1, [] + [Wake(0)], Poll(0, m1));
    RunSnoc(o, 1, 1, [] + [Wake(0)] + [Poll(0, m1)], Poll(0, m2));
    RunSnoc(o, 1, 1, [] + [Wake(0)] + [Poll(0, m1)] + [Poll(0, m2)], Poll(0, Sleep));
    RunSnoc(o, 1, 1, [] + [Wake(0)] + [Poll(0, m1)] + [Poll(0, m2)] + [Poll(0, Sleep)], Publish(0));
    LostAsleep(o);
  }

  lemma LostAsleep(o: Order)
    requires !o.publishFirst
    ensures Lost(o, State(true, [Quiet], [Asleep]))
  {
    assert State(true, [Quiet], [Asleep]).pollers[0].Asleep?;
  }

  ghost predicate LosesNothing(o: Order) {
    forall nw: nat, np: nat, acts: seq<Action> :: !Lost(o, Run(o, nw, np, acts))
  }

  /** No lost wake-up, and exactly why: in every run of any number of pollers and writers no
      poller sleeps on a true condition with no wake-up to come, if and only if pollers
      register before they test and writers publish before they wake. */
  lemma NoLostWakeup(o: Order)
    ensures LosesNothing(o) <==> o.registerFirst && o.publishFirst
  {
    if o.registerFirst && o.publishFirst {
      forall nw: nat, np: nat, acts: seq<Action> ensures !Lost(o, Run(o, nw, np, acts)) {
        RunKeepsInv(o, nw, np, acts);
      }
    } else if o.publishFirst {
      TestBeforeRegisterLoses(o);
    } else {
      WakeBeforePublishLoses(o);
    }
  }

  /** Where a poll that nobody disturbs ends up. */
  lemma PollAlone(o: Order, cond: bool)
    requires o.registerFirst
    ensures PollStep(o, cond, PollStep(o, cond, PollStep(o, cond, Away, Register), Test), Sleep) ==
            if cond then Away else Asleep
  {
  }

  lemma PollOnly(o: Order, s: State, p: nat, m: Move)
    requires p < |s.pollers|
    ensures Step(o, s, Poll(p, m)) == s.(pollers := s.pollers[p := PollStep(o, s.cond, s.pollers[p], m)])
  {
  }

  /** A poll from start to end, in any run with the right orders: it returns at once if the
      condition is true, and sleeps if it is not. */
  lemma {:induction false} PollSleepsIffFalse(o: Order, nw: nat, np: nat, acts: seq<Action>, p: nat)
    requires o.registerFirst && p < |Run(o, nw, np, acts).pollers| && Run(o, nw, np, acts).pollers[p].Away?
    ensures var s := Run(o, nw, np, acts);
            var t := Run(o, nw, np, acts + [Poll(p, Register)] + [Poll(p, Test)] + [Poll(p, Sleep)]);
            t == s.(pollers := s.pollers[p := if s.cond then Away else Asleep])
  {
    RunSnoc(o, nw, np, acts, Poll(p, Register));
    RunSnoc(o, nw, np, acts + [Poll(p, Register)], Poll(p, Test));
    RunSnoc(o, nw, np, acts + [Poll(p, Register)] + [Poll(p, Test)], Poll(p, Sleep));
    var s := Run(o, nw, np, acts);
    PollOnly(o, s, p, Register);
    var s1 := Step(o, s, Poll(p, Register));
    PollOnly(o, s1, p, Test);
    var s2 := Step(o, s1, Poll(p, Test));
    PollOnly(o, s2, p, Sleep);
    PollAlone(o, s.cond);
  }

  /** And whoever sleeps on a true condition has a wake-up to come, after which it returns. */
  lemma {:induction false} SleeperReturns(o: Order, nw: nat, np: nat, acts: seq<Action>, p: nat)
    requires o.registerFirst && o.publishFirst
    requires var s := Run(o, nw, np, acts); s.cond && p < |s.pollers| && s.pollers[p].Asleep?
    ensures exists w: nat ::
              && w < |Run(o, nw, np, acts).writers| && Run(o, nw, np, acts).writers[w].Owing?
              && |Run(o, nw, np, acts + [Wake(w)] + [Poll(p, Test)]).pollers| == |Run(o, nw, np, acts).pollers|
              && Run(o, nw, np, acts + [Wake(w)] + [Poll(p, Test)]).pollers[p] == Away
  {
    var s := Run(o, nw, np, acts);
    RunKeepsInv(o, nw, np, acts);
    assert Committed(s.pollers[p]);
    var w: nat :| w < |s.writers| && s.writers[w].Owing?;
    RunSnoc(o, nw, np, acts, Wake(w));
    RunSnoc(o, nw, np, acts + [Wake(w)], Poll(p, Test));
  }

  /** A signal or a time-out ends the poll: the sleeper gets up, tests once more and returns
      either way. */
  lemma {:induction false} RousedReturns(o: Order, nw: nat, np: nat, acts: seq<Action>, p: nat)
    requires p < |Run(o, nw, np, acts).pollers| && Run(o, nw, np, acts).pollers[p].Asleep?
    ensures var s := Run(o, nw, np, acts);
            Run(o, nw, np, acts + [Poll(p, Rouse)] + [Poll(p, Test)] + [Poll(p, Leave)]) ==
            s.(pollers := s.pollers[p := Away])
  {
    RunSnoc(o, nw, np, acts, Poll(p, Rouse));
    RunSnoc(o, nw, np, acts + [Poll(p, Rouse)], Poll(p, Test));
    RunSnoc(o, nw, np, acts + [Poll(p, Rouse)] + [Poll(p, Test)], Poll(p, Leave));
    var s := Run(o, nw, np, acts);
    PollOnly(o, s, p, Rouse);
    var s1 := Step(o, s, Poll(p, Rouse));
    PollOnly(o, s1, p, Test);
    PollOnly(o, Step(o, s1, Poll(p, Test)), p, Leave);
  }

  /** What a writer that publishes first does to the condition: its publication raises it, it may
      be lowered before the re-test, and then the writer is done without a wake-up. */
  lemma {:induction false} SkippedWakeUp(o: Order, nw: nat, np: nat, acts: seq<Action>, w: nat)
    requires o.publishFirst && w < |Run(o, nw, np, acts).writers| && Run(o, nw, np, acts).writers[w].Quiet?
    ensures Run(o, nw, np, acts + [Publish(w)]).cond && !Run(o, nw, np, acts + [Publish(w)] + [Lower]).cond
    ensures Run(o, nw, np, acts + [Publish(w)] + [Lower] + [Skip(w)]) == Run(o, nw, np, acts).(cond := false)
  {
    RunSnoc(o, nw, np, acts, Publish(w));
    RunSnoc(o, nw, np, acts + [Publish(w)], Lower);
    RunSnoc(o, nw, np, acts + [Publish(w)] + [Lower], Skip(w));
    var s := Run(o, nw, np, acts);
    assert s.writers[w := Owing][w := Quiet] == s.writers;
  }
}
