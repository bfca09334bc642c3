/** practice/mysensor/mysensor.c end to end: the fakebell device raises events, the threaded
    handler turns each into a sample pushed into the 100-entry ring and then wakes the queue,
    and readers poll for samples and pop them at any time. The device is freshly realised and
    the module freshly loaded. `mysensor_remove` leaves the device registers alone, so there is
    no such step here.
 */
module SensorChain {
  import opened Word
  import opened BellDriver
  import R = DropRing
  import W = WakeProtocol

  const CAPACITY: nat := 100

  /** `static int data` after k samples, reduced the way the thread does: `data++ % 100`. */
  function Sample(k: nat): int { Rem(I32(k), 100) }

  /** `due`: the thread has pushed a sample and not yet issued the wake-up that follows. */
  datatype Chain = Chain(sys: Sys, data: int, ring: R.Hist<int>, due: bool, pollers: seq<W.Poller>)

  datatype Event = Irq(a: Action) | Wake | Read | Join | Poll(p: nat, m: W.Move)

  /** `mysensor_poll` and `wait_event_interruptible` register, then test; the thread pushes,
      then wakes. */
  const SOURCE_ORDER := W.Order(true, true)

  function Init(): Chain { Chain(SensorInit(), 0, R.Start([]), false, []) }

  /** What pollers and blocked readers test. */
  predicate Readable(c: Chain) { c.ring.q != [] }

  function Step(c: Chain, e: Event): Chain {
    match e
    case Irq(Remove) => c
    case Irq(a) =>
      var c' := c.(sys := BellDriver.Step(c.sys, a));
      if a.ThHandle? && c.sys.thread.HaveIrq? then
        c'.(ring := R.Apply(c.ring, R.Push(Rem(c.data, 100)), CAPACITY), data := I32(c.data + 1), due := true)
      else if a.ThReturn? && c.due then c
      else c'
    case Wake =>
      if c.due && c.sys.thread.AckDone? then c.(due := false, pollers := W.SignalAll(c.pollers)) else c
    case Read => c.(ring := R.Apply(c.ring, R.Pop, CAPACITY))
    case Join => c.(pollers := c.pollers + [W.Away])
    case Poll(p, m) =>
      if p < |c.pollers| then
        c.(pollers := c.pollers[p := W.PollStep(SOURCE_ORDER, Readable(c), c.pollers[p], m)])
      else c
  }

  /** One sample per thread run, in order. */
  ghost predicate Fed(c: Chain) {
    && |c.ring.pushed| == |c.sys.log|
    && c.data == I32(|c.sys.log|)
    && forall k :: 0 <= k < |c.ring.pushed| ==> c.ring.pushed[k] == Sample(k)
  }

  ghost predicate SysOk(s: Sys) {
    BellDriver.Inv(s) && !s.probe.Start? && s.base == 0
  }

  /** The wake-up is owed from the push until it is issued, before the thread returns. */
  ghost predicate WakeOk(c: Chain) {
    && (c.due ==> c.sys.thread.Counted? || c.sys.thread.AckDone?)
    && W.Attended(Readable(c), c.due, c.pollers)
  }

  ghost predicate Inv(c: Chain) {
    SysOk(c.sys) && R.Inv(c.ring, CAPACITY) && Fed(c) && WakeOk(c)
  }

  /** Only the push step touches the log, the samples or the counter. */
  lemma OnlyHandlingFeeds(c: Chain, e: Event)
    requires !(e == Irq(ThHandle) && c.sys.thread.HaveIrq?)
    ensures var c' := Step(c, e);
            c'.sys.log == c.sys.log && c'.ring.pushed == c.ring.pushed && c'.data == c.data
  {
    if e.Irq? {
      assert BellDriver.Step(c.sys, e.a).log == c.sys.log;
    }
  }

  lemma StepKeepsFed(c: Chain, e: Event)
    requires Fed(c)
    ensures Fed(Step(c, e))
  {
    if e == Irq(ThHandle) && c.sys.thread.HaveIrq? {
      I32Step(|c.sys.log|);
    } else {
      OnlyHandlingFeeds(c, e);
    }
  }

  lemma StepKeepsSys(s: Sys, a: Action)
    requires SysOk(s)
    ensures SysOk(BellDriver.Step(s, a))
  {
    BellDriver.StepKeepsInv(s, a);
  }

  lemma StepKeepsRing(c: Chain, e: Event)
    requires R.Inv(c.ring, CAPACITY)
    ensures R.Inv(Step(c, e).ring, CAPACITY)
  {
    R.ApplyKeepsInv(c.ring, R.Push(Rem(c.data, 100)), CAPACITY);
    R.ApplyKeepsInv(c.ring, R.Pop, CAPACITY);
  }

  lemma StepKeepsWake(c: Chain, e: Event)
    requires ServiceOk(c.sys) && WakeOk(c)
    ensures WakeOk(Step(c, e))
  {
    if e.Poll? && e.p < |c.pollers| {
      W.PollKeepsAttended(SOURCE_ORDER, Readable(c), c.due, c.pollers, e.p, e.m);
    }
  }

  lemma StepKeepsInv(c: Chain, e: Event)
    requires Inv(c)
    ensures Inv(Step(c, e))
  {
    StepKeepsFed(c, e);
    StepKeepsRing(c, e);
    StepKeepsWake(c, e);
    if e.Irq? {
      StepKeepsSys(c.sys, e.a);
    }
  }

  lemma InitSys()
    ensures SysOk(SensorInit())
  {
  }

  lemma InitRing()
    ensures R.Inv<int>(R.Start([]), CAPACITY)
  {
  }

  lemma InitFedAndQuiet()
    ensures Fed(Init()) && WakeOk(Init())
  {
  }

  function Run(events: seq<Event>): Chain {
    if events == [] then Init() else Step(Run(events[..|events| - 1]), events[|events| - 1])
  }

  lemma {:induction false} RunKeepsInv(events: seq<Event>)
    ensures Inv(Run(events))
  {
    if events == [] {
      InitSys();
      InitRing();
      InitFedAndQuiet();
    } else {
      RunKeepsInv(events[..|events| - 1]);
      StepKeepsInv(Run(events[..|events| - 1]), events[|events| - 1]);
    }
  }

  /** How often the signed counter has wrapped after k samples. */
  function Wraps(k: nat): nat { (k + 0x8000_0000) / 0x1_0000_0000 }

  lemma WrapsShift(j: nat)
    ensures (0x1_0000_0000 * j) % 100 == 0 <==> j % 25 == 0
  {
    assert 0x1_0000_0000 * j == 100 * (42949672 * j + j) - 4 * j;
  }

  lemma ShiftUp(w: nat, d: nat)
    ensures (w + d) % 100 == w % 100 <==> d % 100 == 0
  {
  }

  lemma ShiftDown(k: nat, v: nat)
    ensures -(v % 100) == k % 100 <==> k % 100 == 0 && (k + v) % 100 == 0
  {
  }

  /** The exact condition, for every k: the value is the running number modulo 100 iff the
      counter has wrapped a multiple of 25 times and is not negative (or the number is a
      multiple of 100). In particular it always is before the first overflow, and never
      during the 2^32 samples after it. */
  lemma SampleIsRunningNumberIff(k: nat)
    ensures Sample(k) == k % 100 <==> Wraps(k) % 25 == 0 && (I32(k) >= 0 || k % 100 == 0)
    ensures k < 0x8000_0000 ==> Sample(k) == k % 100
    ensures 0x8000_0000 <= k < 0x1_8000_0000 ==> Sample(k) != k % 100
  {
    var j, w := Wraps(k), I32(k);
    WrapsShift(j);
    if w >= 0 {
      ShiftUp(w, 0x1_0000_0000 * j);
    } else {
      ShiftDown(k, -w);
    }
  }

  /** The samples run 0, 1, ..., 99, 0, 1, ... */
  ghost predicate Counting(pushed: seq<int>) {
    forall k :: 0 <= k < |pushed| && k < 0x8000_0000 ==> pushed[k] == k % 100
  }

  lemma FedIsCounting(c: Chain)
    requires Fed(c)
    ensures Counting(c.ring.pushed)
  {
    forall k | 0 <= k < |c.ring.pushed| && k < 0x8000_0000 ensures c.ring.pushed[k] == k % 100 {
      SampleIsRunningNumberIff(k);
    }
  }

  lemma LogNumbersEvents(s: Sys)
    requires SysOk(s)
    ensures s.events == |s.log| + (if Uncounted(s) then 1 else 0)
    ensures forall k :: 0 <= k < |s.log| ==> s.log[k].count == U32(k + 1)
  {
    assert CountOk(s) && LogOk(s);
  }

  /** Every hardware event is pushed exactly once and in order: the k-th push was made by the
      thread run that read event k + 1, with value k % 100 before the counter overflows. */
  lemma {:induction false} EveryEventIsPushedOnce(events: seq<Event>)
    ensures var c := Run(events);
            && |c.ring.pushed| == |c.sys.log|
            && c.sys.events == |c.ring.pushed| + (if Uncounted(c.sys) then 1 else 0)
            && Counting(c.ring.pushed)
            && forall k :: 0 <= k < |c.sys.log| ==> c.sys.log[k].count == U32(k + 1)
  {
    RunKeepsInv(events);
    FedIsCounting(Run(events));
    LogNumbersEvents(Run(events).sys);
  }

  lemma ModApart(a: nat, d: nat)
    requires 0 < d < 100
    ensures (a + d) % 100 != a % 100
  {
  }

  lemma WindowOfSamples(pushed: seq<int>, n: nat, q: seq<int>)
    requires Counting(pushed) && |pushed| <= 0x8000_0000
    requires n + |q| == |pushed| && |q| <= CAPACITY && q == pushed[n..]
    ensures forall i :: 0 <= i < |q| ==> q[i] == (n + i) % 100
    ensures forall i, j :: 0 <= i < j < |q| ==> q[i] != q[j]
  {
    forall i | 0 <= i < |q| ensures q[i] == (n + i) % 100 {
      assert q[i] == pushed[n + i];
    }
    forall i, j | 0 <= i < j < |q| ensures q[i] != q[j] {
      ModApart(n + i, j - i);
    }
  }

  /** The queue is a run of consecutive samples, ending with the latest, all different. */
  ghost predicate IsWindow(r: R.Hist<int>) {
    var n := |r.pushed| - |r.q|;
    && 0 <= n && (forall i :: 0 <= i < |r.q| ==> r.q[i] == (n + i) % 100)
    && forall i, j :: 0 <= i < j < |r.q| ==> r.q[i] != r.q[j]
  }

  lemma RingIsWindow(r: R.Hist<int>)
    requires R.Inv(r, CAPACITY) && Counting(r.pushed) && |r.pushed| <= 0x8000_0000
    ensures IsWindow(r)
  {
    WindowOfSamples(r.pushed, |r.pushed| - |r.q|, r.q);
  }

  /** The ring always holds a contiguous window of the sample sequence, so its values are
      pairwise distinct. */
  lemma {:induction false} BufferIsWindow(events: seq<Event>)
    requires |Run(events).ring.pushed| <= 0x8000_0000
    ensures IsWindow(Run(events).ring)
  {
    RunKeepsInv(events);
    FedIsCounting(Run(events));
    RingIsWindow(Run(events).ring);
  }

  /** With nothing read, the ring holds the last hundred samples. */
  lemma {:induction false} HoldsLastHundred(events: seq<Event>)
    ensures var r := Run(events).ring;
            r.popped == [] ==> |r.q| == Min(|r.pushed|, 100) && r.q == r.pushed[|r.pushed| - |r.q|..]
  {
    RunKeepsInv(events);
    RingFills(events);
  }

  lemma {:induction false} RingFills(events: seq<Event>)
    ensures var r := Run(events).ring;
            r.popped == [] ==> |r.q| == if |r.pushed| < CAPACITY then |r.pushed| else CAPACITY
  {
    if events != [] {
      var c := Run(events[..|events| - 1]);
      RingFills(events[..|events| - 1]);
      R.FillsUp(c.ring, R.Push(Rem(c.data, 100)), CAPACITY);
      R.FillsUp(c.ring, R.Pop, CAPACITY);
    }
  }

  lemma GapMod(a: int, b: int)
    requires 0 <= a < b
    ensures (b % 100 - a % 100 - 1) % 100 == (b - a - 1) % 100
  {
  }

  /** Two deliveries in a row, seen from the reader and from the history. */
  ghost predicate GapIsLoss(out: seq<int>, popped: seq<int>, dropped: seq<int>, i: nat)
    requires i + 1 < |popped| == |out|
  {
    var lost := popped[i + 1] - popped[i] - 1;
    && lost >= 0 && (out[i + 1] - out[i] - 1) % 100 == lost % 100
    && forall k :: popped[i] < k < popped[i + 1] ==> k in dropped
  }

  lemma GapFromFates(r: R.Hist<int>, i: nat)
    requires R.OneFateEach(r, r.pushed) && Counting(r.pushed) && |r.pushed| <= 0x8000_0000
    requires i + 1 < |r.popped|
    ensures GapIsLoss(R.Records(r.results), r.popped, r.dropped, i)
  {
    forall k | r.popped[i] < k < r.popped[i + 1] ensures k in r.dropped {
      R.SkippedWereDropped(|r.popped| + |r.dropped|, r.popped, r.dropped, i, k);
    }
    GapMod(r.popped[i], r.popped[i + 1]);
  }

  /** A gap between two consecutive reads is the number of samples overwritten in between,
      modulo 100: every position skipped was dropped. */
  lemma {:induction false} GapCountsOverwritten(events: seq<Event>, i: nat)
    requires |Run(events).ring.pushed| <= 0x8000_0000
    requires i + 1 < |Run(events).ring.popped|
    ensures var r := Run(events).ring;
            && |R.Records(r.results)| == |r.popped|
            && GapIsLoss(R.Records(r.results), r.popped, r.dropped, i)
  {
    var r := Run(events).ring;
    RunKeepsInv(events);
    R.InvMeansOneFate(r, CAPACITY);
    FedIsCounting(Run(events));
    GapFromFates(r, i);
  }

  /** No reachable state has a poller or blocked reader asleep on a non-empty ring with no
      wake-up due; and the thread cannot return before it has issued the wake-up it owes. */
  lemma {:induction false} NoReaderIsForgotten(events: seq<Event>, p: nat)
    ensures var c := Run(events);
            p < |c.pollers| && c.pollers[p].Asleep? && Readable(c) ==>
              && c.due && (c.sys.thread.Counted? || c.sys.thread.AckDone?)
              && Step(c, Irq(ThReturn)) == c
              && (c.sys.thread.AckDone? ==> Step(c, Wake).pollers[p] == W.Registered(false))
  {
    var c := Run(events);
    RunKeepsInv(events);
    if p < |c.pollers| && c.pollers[p].Asleep? && Readable(c) {
      assert W.Committed(c.pollers[p]);
    }
  }
}
