/** Progress on practice/mysensor: what the interrupt core and the driver thread achieve by
    themselves, whatever the timer, the readers and the pollers do in between.
 */
module SensorProgress {
  import B = BellDriver
  import W = WakeProtocol
  import opened SensorChain

  /** One turn: the driver does its next step, or something else happens. */
  datatype Turn = Driver | Other(e: Event)

  /** Ticks, reads and polls. */
  predicate Foreign(e: Event) { e == Irq(B.Timer) || e.Read? || e.Join? || e.Poll? }

  /** The next thing the interrupt core or the thread will do: the wake-up comes between the
      acknowledgement and the return. */
  function NextOf(c: Chain): Event {
    if c.sys.thread.AckDone? && c.due then Wake else Irq(B.NextOf(c.sys))
  }

  function Take(c: Chain, t: Turn): Chain {
    match t
    case Driver => Step(c, NextOf(c))
    case Other(e) => if Foreign(e) then Step(c, e) else c
  }

  function Drive(c: Chain, sched: seq<Turn>): Chain
    decreases |sched|
  {
    if sched == [] then c else Drive(Take(c, sched[0]), sched[1..])
  }

  function DriverTurns(sched: seq<Turn>): nat {
    if sched == [] then 0 else (if sched[0].Driver? then 1 else 0) + DriverTurns(sched[1..])
  }

  /** Sample n is pushed, it was the next one, and nobody is asleep or about to be. */
  ghost predicate Announced(c: Chain, n: nat) {
    && |c.ring.pushed| == n + 1 && c.ring.pushed[n] == Sample(n)
    && forall p :: 0 <= p < |c.pollers| ==> !W.Committed(c.pollers[p])
  }

  /** Event n + 1 is pending and not yet handled, or handled and not yet announced. */
  ghost predicate UnderWay(c: Chain, n: nat) {
    && c.sys.probe.Enabled?
    && if |c.ring.pushed| == n then B.Uncounted(c.sys) else |c.ring.pushed| == n + 1 && c.due
  }

  /** Driver turns left until sample n is announced. */
  function Left(c: Chain, n: nat): nat {
    if |c.ring.pushed| > n then (if c.sys.thread.Counted? then 2 else 1)
    else B.Distance(c.sys) + 2 + if c.sys.thread.AckDone? && c.due then 1 else 0
  }

  /** Before the push: the interrupt is delivered and the thread works up to the push. */
  lemma DriverHandles(c: Chain, n: nat)
    requires Inv(c) && UnderWay(c, n) && |c.ring.pushed| == n
    ensures var c' := Take(c, Driver); UnderWay(c', n) && Left(c', n) < Left(c, n)
  {
    B.DriverGetsCloser(c.sys);
  }

  /** After the push: acknowledge, then wake everybody. */
  lemma DriverAnnounces(c: Chain, n: nat)
    requires Inv(c) && UnderWay(c, n) && |c.ring.pushed| == n + 1
    ensures var c' := Take(c, Driver);
            Announced(c', n) || (UnderWay(c', n) && Left(c', n) < Left(c, n))
  {
  }

  lemma OthersDoNotHinder(c: Chain, n: nat, e: Event)
    requires Inv(c) && UnderWay(c, n) && Foreign(e)
    ensures UnderWay(Step(c, e), n) && Left(Step(c, e), n) == Left(c, n)
  {
    OnlyHandlingFeeds(c, e);
    if B.Uncounted(c.sys) {
      B.DriverGetsCloser(c.sys);
    }
  }

  /** Sample n has been announced at some moment of the schedule, after at most `turns` driver
      turns. */
  ghost predicate AnnouncedWithin(c: Chain, n: nat, sched: seq<Turn>, turns: nat) {
    exists k :: 0 <= k <= |sched| && DriverTurns(sched[..k]) <= turns && Announced(Drive(c, sched[..k]), n)
  }

  lemma LaterIsWithin(c: Chain, n: nat, sched: seq<Turn>, turns: nat)
    requires sched != [] && AnnouncedWithin(Take(c, sched[0]), n, sched[1..], turns)
    ensures AnnouncedWithin(c, n, sched, turns + if sched[0].Driver? then 1 else 0)
  {
    var k :| 0 <= k <= |sched[1..]| && DriverTurns(sched[1..][..k]) <= turns
             && Announced(Drive(Take(c, sched[0]), sched[1..][..k]), n);
    assert sched[..k + 1][1..] == sched[1..][..k];
  }

  lemma TurnKeepsInv(c: Chain, t: Turn)
    requires Inv(c)
    ensures Inv(Take(c, t))
  {
    StepKeepsInv(c, if t.Driver? then NextOf(c) else t.e);
  }

  lemma {:induction false} SoonAnnounced(c: Chain, n: nat, sched: seq<Turn>)
    requires Inv(c) && UnderWay(c, n) && DriverTurns(sched) >= Left(c, n)
    ensures AnnouncedWithin(c, n, sched, Left(c, n))
    decreases |sched|
  {
    var c' := Take(c, sched[0]);
    TurnKeepsInv(c, sched[0]);
    if sched[0].Other? {
      if Foreign(sched[0].e) {
        OthersDoNotHinder(c, n, sched[0].e);
      }
      SoonAnnounced(c', n, sched[1..]);
    } else {
      if |c.ring.pushed| == n {
        DriverHandles(c, n);
      } else {
        DriverAnnounces(c, n);
      }
      if Announced(c', n) {
        assert Drive(c', sched[1..][..0]) == c';
      } else {
        SoonAnnounced(c', n, sched[1..]);
      }
    }
    LaterIsWithin(c, n, sched, if sched[0].Driver? then Left(c, n) - 1 else Left(c, n));
  }

  /** On an enabled device, from every reachable state: a pending event becomes a sample in the
      ring, and everybody on the wait queue is up, within ten driver turns, with any ticks,
      reads and polls in between. */
  lemma {:induction false} PendingEventReachesReaders(events: seq<Event>, sched: seq<Turn>)
    requires Run(events).sys.probe.Enabled? && B.Uncounted(Run(events).sys)
    requires DriverTurns(sched) >= 10
    ensures AnnouncedWithin(Run(events), |Run(events).ring.pushed|, sched, 10)
  {
    var c := Run(events);
    var n := |c.ring.pushed|;
    RunKeepsInv(events);
    SoonAnnounced(c, n, sched);
    var k :| 0 <= k <= |sched| && DriverTurns(sched[..k]) <= Left(c, n) && Announced(Drive(c, sched[..k]), n);
    assert DriverTurns(sched[..k]) <= 10;
  }
}
