/** The fakebell device against a threaded driver (myirq/mybell.c and the same shape in
    practice/mysensor/mysensor.c). The interrupt core masks the line before the hard handler
    runs. With IRQF_ONESHOT it unmasks after the thread returns; without, as soon as the hard
    handler returns, and a wake-up that finds the thread busy makes it run once more. `Woken`
    covers the time before the core clears its run flag, when a further wake-up is dropped, and
    the time after, up to the first read, when it is noted; without the flag an entry is taken
    to fall in the second, which is the worse. The
    device timer may fire between any two register accesses. A run is any sequence of actions;
    an action that is not enabled leaves the state alone.
 */
module BellDriver {
  import opened FakeBell
  import opened Word

  datatype Probe = Start | Acked | Requested | Enabled | Removed

  datatype Hard = NoIrq | Entered

  datatype Thread =
    | Waiting
    | Woken
    | HaveStatus(status: nat)
    | HaveCount(status: nat, count: nat)
    | HaveIrq(status: nat, count: nat, irq: nat)
    | Counted
    | AckDone

  /** What one run of the thread function saw before it acknowledged. */
  datatype Handled = Handled(status: nat, count: nat, irq: nat)

  /** `oneshot` is the flag the interrupt was requested with, `rerun` the core's note that the
      thread was woken while busy. History, not program state: `events` ever raised, `base` that
      number at the probe-time acknowledgement, `log` one record per thread run, `entries` of
      the hard handler. */
  datatype Sys = Sys(
    oneshot: bool, dev: Regs, probe: Probe, masked: bool, hard: Hard, thread: Thread, rerun: bool,
    irqCount: nat, log: seq<Handled>, events: nat, base: nat, entries: nat)

  datatype Action =
    | Timer
    | ProbeAck | ProbeRequest | ProbeEnable | Remove
    | HardEnter | HardRead
    | ThStatus | ThCount | ThIrq | ThHandle | ThAck | ThReturn

  function Ack(d: Regs): Regs { Apply(d, Op.Write(IRQ_ACK, 1, 4)) }

  function SetEnable(d: Regs, v: nat): Regs { Apply(d, Op.Write(IRQ_ENABLE, v, 4)) }

  /** mybell probes a device in any state and acknowledges first. */
  function Probing(dev: Regs, oneshot: bool): Sys {
    Sys(oneshot, dev, Start, false, NoIrq, Waiting, false, 0, [], dev.count, 0, 0)
  }

  /** mybell requests its interrupt with IRQF_ONESHOT. */
  function BellInit(dev: Regs): Sys { Probing(dev, true) }

  /** mysensor never acknowledges at probe; it is described on a freshly realised device. */
  function SensorInit(): Sys {
    Sys(true, Realized(), Acked, false, NoIrq, Waiting, false, 0, [], 0, 0, 0)
  }

  /** The hard handler's answer: not mine, or wake the thread. */
  function HardReturns(s: Sys): Sys {
    if Bit0(ReadReg(s.dev, IRQ_STATUS, 4)) == 0 then s.(hard := NoIrq, masked := false)
    else if s.oneshot then s.(hard := NoIrq, thread := Woken)
    else if s.thread.Waiting? then s.(hard := NoIrq, masked := false, thread := Woken)
    else s.(hard := NoIrq, masked := false, rerun := true)
  }

  function ThreadReturns(s: Sys): Sys {
    if s.rerun then s.(thread := Woken, rerun := false) else s.(thread := Waiting, masked := s.masked && !s.oneshot)
  }

  function Step(s: Sys, a: Action): Sys {
    match a
    case Timer =>
      s.(dev := Apply(s.dev, Op.Tick), events := s.events + if Bit0(s.dev.pending) == 0 then 1 else 0)
    case ProbeAck => if s.probe.Start? then s.(dev := Ack(s.dev), probe := Acked, base := s.events) else s
    case ProbeRequest => if s.probe.Acked? then s.(probe := Requested) else s
    case ProbeEnable => if s.probe.Requested? then s.(probe := Enabled, dev := SetEnable(s.dev, 1)) else s
    case Remove => if s.probe.Enabled? then s.(probe := Removed, dev := SetEnable(s.dev, 0)) else s
    case HardEnter =>
      if !s.probe.Start? && !s.probe.Acked? && s.dev.line && !s.masked && s.hard.NoIrq? then
        s.(masked := true, hard := Entered, entries := s.entries + 1)
      else s
    case HardRead => if s.hard.Entered? then HardReturns(s) else s
    case ThStatus => if s.thread.Woken? then s.(thread := HaveStatus(ReadReg(s.dev, STATUS, 4))) else s
    case ThCount =>
      if s.thread.HaveStatus? then s.(thread := HaveCount(s.thread.status, ReadReg(s.dev, EVENT_COUNT, 4))) else s
    case ThIrq =>
      if s.thread.HaveCount? then
        s.(thread := HaveIrq(s.thread.status, s.thread.count, ReadReg(s.dev, IRQ_STATUS, 4)))
      else s
    case ThHandle =>
      if s.thread.HaveIrq? then
        s.(thread := Counted, irqCount := U32(s.irqCount + 1),
           log := s.log + [Handled(s.thread.status, s.thread.count, s.thread.irq)])
      else s
    case ThAck => if s.thread.Counted? then s.(thread := AckDone, dev := Ack(s.dev)) else s
    case ThReturn => if s.thread.AckDone? then ThreadReturns(s) else s
  }

  function Run(s: Sys, acts: seq<Action>): Sys {
    if acts == [] then s else Step(Run(s, acts[..|acts| - 1]), acts[|acts| - 1])
  }

  // ---------------------------------------------------------------- invariant

  /** An event is pending that no thread run has accounted for yet. */
  predicate Uncounted(s: Sys) { s.dev.pending == 1 && !s.thread.Counted? }

  /** The line is masked exactly while an interrupt is being serviced, and what is being
      serviced stays pending until the acknowledgement. */
  predicate ServiceOk(s: Sys) {
    && s.oneshot && !s.rerun
    && (s.masked <==> s.hard.Entered? || !s.thread.Waiting?)
    && !(s.hard.Entered? && !s.thread.Waiting?)
    && (s.hard.Entered? ==> s.dev.pending == 1)
    && (!s.thread.Waiting? && !s.thread.AckDone? ==> s.dev.pending == 1)
    && (s.probe.Start? || s.probe.Acked? ==> s.hard.NoIrq? && s.thread.Waiting?)
    && (s.probe.Enabled? ==> s.dev.enable == 1)
    && (s.probe.Removed? ==> s.dev.enable == 0)
  }

  /** The values the thread has read describe the one event that is still pending. */
  predicate ReadsOk(s: Sys) {
    match s.thread
    case HaveStatus(st) => st == 1
    case HaveCount(st, n) => st == 1 && n == U32(s.events)
    case HaveIrq(st, n, irq) => st == 1 && n == U32(s.events) && irq == 1
    case _ => true
  }

  predicate CountOk(s: Sys) {
    && s.dev.count == U32(s.events)
    && s.irqCount == U32(|s.log|)
    && (s.probe.Start? ==> s.log == [])
    && (!s.probe.Start? ==> s.events == s.base + |s.log| + if Uncounted(s) then 1 else 0)
  }

  /** The hard handler has been entered for an interrupt whose thread run is not counted yet. */
  predicate InService(s: Sys) {
    s.hard.Entered? || !(s.thread.Waiting? || s.thread.Counted? || s.thread.AckDone?)
  }

  predicate EntriesOk(s: Sys) { s.entries == |s.log| + if InService(s) then 1 else 0 }

  /** Thread run k read the (k+1)-st event after the probe: active, pending, and with that
      event's own number in the counter register. */
  predicate NamesItsEvent(h: Handled, base: nat, k: nat) { h == Handled(1, U32(base + k + 1), 1) }

  predicate LogOk(s: Sys) {
    forall k :: 0 <= k < |s.log| ==> NamesItsEvent(s.log[k], s.base, k)
  }

  predicate Inv(s: Sys) {
    Level(s.dev) && ServiceOk(s) && ReadsOk(s) && CountOk(s) && EntriesOk(s) && LogOk(s)
  }

  lemma StepKeepsCount(s: Sys, a: Action)
    requires Inv(s)
    ensures CountOk(Step(s, a))
  {
    U32Step(s.events);
    U32Step(|s.log|);
  }

  lemma StepKeepsService(s: Sys, a: Action)
    requires Level(s.dev) && ServiceOk(s)
    ensures Level(Step(s, a).dev) && ServiceOk(Step(s, a))
  {
  }

  lemma StepKeepsEntries(s: Sys, a: Action)
    requires Inv(s)
    ensures EntriesOk(Step(s, a))
  {
  }

  lemma StepKeepsReads(s: Sys, a: Action)
    requires Inv(s)
    ensures ReadsOk(Step(s, a)) && LogOk(Step(s, a))
  {
  }

  lemma StepKeepsInv(s: Sys, a: Action)
    requires Inv(s)
    ensures Inv(Step(s, a))
  {
    StepKeepsService(s, a);
    StepKeepsCount(s, a);
    StepKeepsEntries(s, a);
    StepKeepsReads(s, a);
  }

  lemma {:induction false} RunKeepsInv(s: Sys, acts: seq<Action>)
    requires Inv(s)
    ensures Inv(Run(s, acts))
  {
    if acts != [] {
      RunKeepsInv(s, acts[..|acts| - 1]);
      StepKeepsInv(Run(s, acts[..|acts| - 1]), acts[|acts| - 1]);
    }
  }

  /** A device register file in a state the device can be in. */
  predicate Sound(dev: Regs) { Level(dev) && dev.count == U32(dev.count) }

  lemma BellStarts(dev: Regs)
    requires Sound(dev)
    ensures Inv(BellInit(dev))
  {
  }

  lemma BellKeepsInv(dev: Regs, acts: seq<Action>)
    requires Sound(dev)
    ensures Inv(Run(BellInit(dev), acts))
  {
    BellStarts(dev);
    RunKeepsInv(BellInit(dev), acts);
  }

  lemma {:induction false} RunSnoc(s: Sys, acts: seq<Action>, a: Action)
    ensures Run(s, acts + [a]) == Step(Run(s, acts), a)
  {
    assert (acts + [a])[..|acts|] == acts;
  }

  // ---------------------------------------------------------------- theorems

  /** What the driver or the timer does to the device in one step. */
  function Issued(s: Sys, a: Action): seq<Op> {
    match a
    case Timer => [Op.Tick]
    case ProbeAck => if s.probe.Start? then [Op.Write(IRQ_ACK, 1, 4)] else []
    case ProbeEnable => if s.probe.Requested? then [Op.Write(IRQ_ENABLE, 1, 4)] else []
    case Remove => if s.probe.Enabled? then [Op.Write(IRQ_ENABLE, 0, 4)] else []
    case ThAck => if s.thread.Counted? then [Op.Write(IRQ_ACK, 1, 4)] else []
    case _ => []
  }

  function DeviceOps(s: Sys, acts: seq<Action>): seq<Op> {
    if acts == [] then []
    else
      var init := acts[..|acts| - 1];
      DeviceOps(s, init) + Issued(Run(s, init), acts[|acts| - 1])
  }

  lemma IssuedIsApplied(s: Sys, a: Action)
    requires Level(s.dev)
    ensures |Issued(s, a)| <= 1
    ensures Step(s, a).dev == if Issued(s, a) == [] then s.dev else Apply(s.dev, Issued(s, a)[0])
    ensures Step(s, a).events == s.events + if a.Timer? && s.dev.pending == 0 then 1 else 0
  {
  }

  lemma RunOpsSnoc(r: Regs, ops: seq<Op>, op: Op)
    ensures RunOps(r, ops + [op]) == Apply(RunOps(r, ops), op)
    ensures Raised(r, ops + [op]) == Raised(r, ops) + if op.Tick? && RunOps(r, ops).pending == 0 then 1 else 0
  {
    assert (ops + [op])[..|ops|] == ops;
  }

  lemma StepIsDeviceStep(s: Sys, a: Action, r: Regs, ops: seq<Op>)
    requires Level(s.dev) && s.dev == RunOps(r, ops)
    ensures Level(Step(s, a).dev) && Step(s, a).dev == RunOps(r, ops + Issued(s, a))
    ensures Step(s, a).events - s.events == Raised(r, ops + Issued(s, a)) - Raised(r, ops)
  {
    IssuedIsApplied(s, a);
    if Issued(s, a) == [] {
      assert ops + Issued(s, a) == ops;
    } else {
      var op := Issued(s, a)[0];
      assert Issued(s, a) == [op];
      RunOpsSnoc(r, ops, op);
      ApplyKeepsLevel(s.dev, op);
    }
  }

  /** A run of the whole system is a run of the device, and the events are those it raised. */
  lemma {:induction false} SystemRunIsDeviceRun(s: Sys, acts: seq<Action>)
    requires Level(s.dev)
    ensures Level(Run(s, acts).dev) && Run(s, acts).dev == RunOps(s.dev, DeviceOps(s, acts))
    ensures Run(s, acts).events == s.events + Raised(s.dev, DeviceOps(s, acts))
  {
    if acts != [] {
      var init := acts[..|acts| - 1];
      SystemRunIsDeviceRun(s, init);
      StepIsDeviceStep(Run(s, init), acts[|acts| - 1], s.dev, DeviceOps(s, init));
    }
  }

  /** The part of a run before the probe-time acknowledgement. */
  function BeforeAck(acts: seq<Action>): seq<Action> {
    if ProbeAck !in acts then acts
    else if ProbeAck in acts[..|acts| - 1] then BeforeAck(acts[..|acts| - 1])
    else acts[..|acts| - 1]
  }

  /** Only the acknowledgement leaves the start of the probe, and nothing else sets `base`. */
  lemma StepFromStart(s: Sys, a: Action)
    ensures Step(s, a).probe.Start? <==> s.probe.Start? && !a.ProbeAck?
    ensures Step(s, a).base == if s.probe.Start? && a.ProbeAck? then s.events else s.base
  {
  }

  lemma {:induction false} StartUntilAck(dev: Regs, acts: seq<Action>)
    ensures Run(BellInit(dev), acts).probe.Start? <==> ProbeAck !in acts
  {
    if acts != [] {
      var init, a := acts[..|acts| - 1], acts[|acts| - 1];
      StartUntilAck(dev, init);
      StepFromStart(Run(BellInit(dev), init), a);
      assert acts == init + [a];
    }
  }

  /** The probe acknowledges before it does anything else: whatever was pending is cleared, the
      line is low, and every event up to then is discarded, none later. */
  lemma {:induction false} ProbeDiscards(dev: Regs, acts: seq<Action>)
    requires Sound(dev) && ProbeAck !in acts
    ensures var s, t := Run(BellInit(dev), acts), Run(BellInit(dev), acts + [ProbeAck]);
            && s.probe.Start? && t.probe.Acked? && t.dev.pending == 0 && t.dev.status == 0 && !t.dev.line
            && t.dev.count == s.dev.count && t.base == t.events == s.events && t.log == []
  {
    StartUntilAck(dev, acts);
    BellKeepsInv(dev, acts);
    RunSnoc(BellInit(dev), acts, ProbeAck);
  }

  lemma {:induction false} BaseIsEventsBeforeAck(dev: Regs, acts: seq<Action>)
    requires ProbeAck in acts
    ensures Run(BellInit(dev), acts).base == Run(BellInit(dev), BeforeAck(acts)).events
  {
    var init := acts[..|acts| - 1];
    StartUntilAck(dev, init);
    StepFromStart(Run(BellInit(dev), init), acts[|acts| - 1]);
    assert acts == init + [acts[|acts| - 1]];
    if ProbeAck in init {
      BaseIsEventsBeforeAck(dev, init);
    }
  }

  /** Every event ever raised was discarded at probe, or counted by one thread run, or is pending
      and uncounted; the device counter and the driver counter agree on this modulo 2^32. */
  predicate CountedOnce(s: Sys) {
    var open := if Uncounted(s) then 1 else 0;
    && s.events == s.base + |s.log| + open
    && s.dev.count == U32(s.base + open + s.irqCount)
  }

  lemma CountersAgree(s: Sys)
    requires CountOk(s) && !s.probe.Start?
    ensures CountedOnce(s)
  {
    U32Sum(s.base + if Uncounted(s) then 1 else 0, |s.log|);
  }

  /** Exactly once, in every state past the probe-time acknowledgement. */
  lemma {:induction false} EveryEventCountedOnce(dev: Regs, acts: seq<Action>)
    requires Sound(dev)
    requires !Run(BellInit(dev), acts).probe.Start?
    ensures CountedOnce(Run(BellInit(dev), acts))
  {
    BellKeepsInv(dev, acts);
    CountersAgree(Run(BellInit(dev), acts));
  }

  /** The same from the device's side: the events it raised after the probe-time acknowledgement
      are those counted by thread runs and the one that is pending and uncounted. */
  lemma {:induction false} EveryRaisedEventIsCounted(dev: Regs, acts: seq<Action>)
    requires Sound(dev) && ProbeAck in acts
    ensures var s := Run(BellInit(dev), acts);
            Raised(dev, DeviceOps(BellInit(dev), acts)) ==
            Raised(dev, DeviceOps(BellInit(dev), BeforeAck(acts))) + |s.log| + if Uncounted(s) then 1 else 0
  {
    StartUntilAck(dev, acts);
    EveryEventCountedOnce(dev, acts);
    SystemRunIsDeviceRun(BellInit(dev), acts);
    SystemRunIsDeviceRun(BellInit(dev), BeforeAck(acts));
    BaseIsEventsBeforeAck(dev, acts);
  }

  /** Every thread run of every run of the system saw the one event it was run for. */
  lemma {:induction false} ThreadReadsItsOwnEvent(dev: Regs, acts: seq<Action>, k: nat)
    requires Sound(dev)
    requires k < |Run(BellInit(dev), acts).log|
    ensures var s := Run(BellInit(dev), acts); NamesItsEvent(s.log[k], s.base, k)
  {
    BellKeepsInv(dev, acts);
    assert LogOk(Run(BellInit(dev), acts));
  }

  lemma TimerIsPowerless(s: Sys)
    requires Level(s.dev) && ServiceOk(s)
    requires s.hard.Entered? || (!s.thread.Waiting? && !s.thread.AckDone?)
    ensures Step(s, Timer) == s
    ensures s.hard.Entered? ==> Step(s, HardRead).thread.Woken?
  {
  }

  /** From the moment the hard handler is entered until the acknowledgement the timer is
      powerless: no new event can arise, so the values read belong to the event acknowledged.
      The handler's "not mine" branch is never taken. */
  lemma {:induction false} NothingArisesDuringService(dev: Regs, acts: seq<Action>)
    requires Sound(dev)
    ensures var s := Run(BellInit(dev), acts);
            s.hard.Entered? || (!s.thread.Waiting? && !s.thread.AckDone?) ==>
              Step(s, Timer) == s && (s.hard.Entered? ==> Step(s, HardRead).thread.Woken?)
  {
    var s := Run(BellInit(dev), acts);
    BellKeepsInv(dev, acts);
    if s.hard.Entered? || (!s.thread.Waiting? && !s.thread.AckDone?) {
      TimerIsPowerless(s);
    }
  }

  /** Removing an enabled driver disables the device at once, whatever is in progress. */
  lemma {:induction false} RemoveSilences(dev: Regs, acts: seq<Action>)
    requires Sound(dev) && Run(BellInit(dev), acts).probe.Enabled?
    ensures var s, t := Run(BellInit(dev), acts), Run(BellInit(dev), acts + [Remove]);
            && t.probe.Removed? && t.dev.enable == 0 && !t.dev.line
            && t.dev.pending == s.dev.pending && t.thread == s.thread && t.log == s.log
  {
    BellKeepsInv(dev, acts);
    RunSnoc(BellInit(dev), acts, Remove);
  }

  /** Once removed, the driver lets a run in progress finish and is never entered again. */
  lemma {:induction false} QuietAfterRemove(dev: Regs, acts: seq<Action>)
    requires Sound(dev)
    requires Run(BellInit(dev), acts).probe.Removed?
    ensures var s := Run(BellInit(dev), acts); !s.dev.line && Step(s, HardEnter) == s
  {
    BellKeepsInv(dev, acts);
  }

  /** The next thing the interrupt core or the thread will do. */
  function NextOf(s: Sys): Action {
    match s.thread
    case Waiting => if s.hard.Entered? then HardRead else HardEnter
    case Woken => ThStatus
    case HaveStatus(_) => ThCount
    case HaveCount(_, _) => ThIrq
    case HaveIrq(_, _, _) => ThHandle
    case Counted => ThAck
    case AckDone => ThReturn
  }

  /** Driver steps left until a pending event is counted. */
  function Distance(s: Sys): nat {
    match s.thread
    case AckDone => 7
    case Waiting => if s.hard.Entered? then 5 else 6
    case Woken => 4
    case HaveStatus(_) => 3
    case HaveCount(_, _) => 2
    case HaveIrq(_, _, _) => 1
    case Counted => 0
  }

  /** Driver steps (true) and timer ticks (false) in any order. */
  function Drive(s: Sys, sched: seq<bool>): Sys
    decreases |sched|
  {
    if sched == [] then s else Drive(Step(s, if sched[0] then NextOf(s) else Timer), sched[1..])
  }

  function DriverSteps(sched: seq<bool>): nat {
    if sched == [] then 0 else (if sched[0] then 1 else 0) + DriverSteps(sched[1..])
  }

  lemma {:induction false} LogGrows(s: Sys, sched: seq<bool>)
    ensures |Drive(s, sched).log| >= |s.log|
    decreases |sched|
  {
    if sched != [] {
      LogGrows(Step(s, if sched[0] then NextOf(s) else Timer), sched[1..]);
    }
  }

  lemma DriverGetsCloser(s: Sys)
    requires Inv(s) && s.probe.Enabled? && Uncounted(s)
    ensures var t := Step(s, NextOf(s));
            if s.thread.HaveIrq? then |t.log| == |s.log| + 1
            else t.probe.Enabled? && Uncounted(t) && Distance(t) < Distance(s) && t.log == s.log
    ensures Step(s, Timer) == s
  {
  }

  lemma {:induction false} CountedWithin(s: Sys, sched: seq<bool>)
    requires Inv(s) && s.probe.Enabled? && Uncounted(s)
    requires DriverSteps(sched) >= Distance(s)
    ensures |Drive(s, sched).log| > |s.log|
    decreases |sched|
  {
    DriverGetsCloser(s);
    if sched[0] {
      var t := Step(s, NextOf(s));
      StepKeepsInv(s, NextOf(s));
      if s.thread.HaveIrq? {
        LogGrows(t, sched[1..]);
      } else {
        CountedWithin(t, sched[1..]);
      }
    } else {
      CountedWithin(s, sched[1..]);
    }
  }

  /** No interrupt is lost: on an enabled device a pending event is counted within seven driver
      steps, however many timer ticks come between them, including an event raised after the
      acknowledgement and before the thread returns. */
  lemma {:induction false} PendingEventIsCounted(dev: Regs, acts: seq<Action>, sched: seq<bool>)
    requires Sound(dev)
    requires Run(BellInit(dev), acts).probe.Enabled? && Uncounted(Run(BellInit(dev), acts))
    requires DriverSteps(sched) >= 7
    ensures |Drive(Run(BellInit(dev), acts), sched).log| > |Run(BellInit(dev), acts).log|
  {
    BellKeepsInv(dev, acts);
    CountedWithin(Run(BellInit(dev), acts), sched);
  }

  // ---------------------------------------------------------------- what IRQF_ONESHOT buys

  lemma {:induction false} RunTwo(s: Sys, acts: seq<Action>, a: Action, b: Action)
    ensures Run(s, acts + [a] + [b]) == Step(Step(Run(s, acts), a), b)
  {
    RunSnoc(s, acts, a);
    RunSnoc(s, acts + [a], b);
  }

  lemma {:induction false} RunCat(s: Sys, a: seq<Action>, b: seq<Action>)
    ensures Run(s, a + b) == Run(Run(s, a), b)
    decreases |b|
  {
    if b == [] {
      assert a + b == a;
    } else {
      var n := |b| - 1;
      assert a + b == (a + b[..n]) + [b[n]];
      RunCat(s, a, b[..n]);
      RunSnoc(s, a + b[..n], b[n]);
    }
  }

  /** Probe, and one event. */
  const FIRST_EVENT: seq<Action> := [ProbeAck] + [ProbeRequest] + [ProbeEnable] + [Timer]

  /** The state then: unmasked, line high, nothing entered or counted. */
  function Ringing(oneshot: bool): Sys {
    Sys(oneshot, Regs(1, 1, 1, 1, true), Enabled, false, NoIrq, Waiting, false, 0, [], 1, 0, 0)
  }

  lemma FirstEventRings(oneshot: bool)
    ensures Run(Probing(Realized(), oneshot), FIRST_EVENT) == Ringing(oneshot)
  {
    var s := Probing(Realized(), oneshot);
    RunSnoc(s, [], ProbeAck);
    assert [] + [ProbeAck] == [ProbeAck];
    RunSnoc(s, [ProbeAck], ProbeRequest);
    RunSnoc(s, [ProbeAck] + [ProbeRequest], ProbeEnable);
    RunSnoc(s, [ProbeAck] + [ProbeRequest] + [ProbeEnable], Timer);
  }

  /** n times in and out of the hard handler. */
  function Storm(n: nat): seq<Action> {
    if n == 0 then [] else Storm(n - 1) + [HardEnter] + [HardRead]
  }

  /** The state after n entries without the flag: as before, but for the thread being woken. */
  function Stormed(n: nat): Sys {
    Ringing(false).(entries := n, thread := if n > 0 then Woken else Waiting, rerun := n > 1)
  }

  lemma OneMoreEntry(n: nat)
    ensures Step(Step(Stormed(n), HardEnter), HardRead) == Stormed(n + 1)
  {
    assert Step(Stormed(n), HardEnter) == Stormed(n).(masked := true, hard := Entered, entries := n + 1);
  }

  /** Without the flag the line stays high and unmasked, so the handler can be entered without
      bound while the one thread run that would clear it never gets to run. */
  lemma {:induction false} StormWithoutOneshot(n: nat)
    ensures Run(Ringing(false), Storm(n)) == Stormed(n)
    ensures Stormed(n).entries == n && Stormed(n).log == []
  {
    if n > 0 {
      StormWithoutOneshot(n - 1);
      RunTwo(Ringing(false), Storm(n - 1), HardEnter, HardRead);
      OneMoreEntry(n - 1);
    }
  }

  /** Every entry of the hard handler has its own thread run, counted or in service. */
  ghost predicate EntriesMatch(oneshot: bool) {
    forall dev: Regs, acts: seq<Action> ::
      Sound(dev) ==> EntriesOk(Run(Probing(dev, oneshot), acts))
  }

  /** Handler entries are thread runs plus the one in service, in every run, if and only if the
      interrupt is requested with IRQF_ONESHOT. */
  lemma EntriesMatchIffOneshot(oneshot: bool)
    ensures EntriesMatch(oneshot) <==> oneshot
  {
    if oneshot {
      forall dev: Regs, acts: seq<Action> | Sound(dev) ensures EntriesOk(Run(Probing(dev, oneshot), acts)) {
        BellKeepsInv(dev, acts);
      }
    } else {
      FirstEventRings(false);
      RunCat(Probing(Realized(), false), FIRST_EVENT, Storm(2));
      StormWithoutOneshot(2);
      assert !EntriesOk(Run(Probing(Realized(), false), FIRST_EVENT + Storm(2)));
    }
  }

  const THREAD_READS: seq<Action> := [ThStatus] + [ThCount] + [ThIrq] + [ThHandle]

  const THREAD_ENDS: seq<Action> := [ThAck] + [ThReturn]

  lemma ThreadReads(s: Sys)
    requires s.thread.Woken?
    ensures Run(s, THREAD_READS) ==
            s.(thread := Counted, irqCount := U32(s.irqCount + 1),
               log := s.log + [Handled(s.dev.status, s.dev.count, s.dev.pending)])
  {
    RunSnoc(s, [], ThStatus);
    assert [] + [ThStatus] == [ThStatus];
    RunSnoc(s, [ThStatus], ThCount);
    RunSnoc(s, [ThStatus] + [ThCount], ThIrq);
    RunSnoc(s, [ThStatus] + [ThCount] + [ThIrq], ThHandle);
  }

  lemma ThreadEnds(s: Sys)
    requires s.thread.Counted?
    ensures Run(s, THREAD_ENDS) == ThreadReturns(s.(thread := AckDone, dev := Ack(s.dev)))
  {
    RunSnoc(s, [], ThAck);
    assert [] + [ThAck] == [ThAck];
    RunSnoc(s, [ThAck], ThReturn);
  }

  /** A run without the flag in which one event is counted twice, the second time by a thread
      run that finds nothing pending. */
  const TWICE: seq<Action> := FIRST_EVENT + Storm(2) + THREAD_READS + THREAD_ENDS + THREAD_READS

  lemma DoubleCountWithoutOneshot()
    ensures var s := Run(Probing(Realized(), false), TWICE);
            && !s.probe.Start? && s.base == 0 && s.events == 1 && s.irqCount == 2
            && s.log == [Handled(1, 1, 1), Handled(0, 1, 0)]
  {
    var s0 := Probing(Realized(), false);
    FirstEventRings(false);
    RunCat(s0, FIRST_EVENT, Storm(2));
    StormWithoutOneshot(2);
    var s1 := Run(s0, FIRST_EVENT + Storm(2));
    ThreadReads(s1);
    var s2 := Run(s1, THREAD_READS);
    assert s2.log == [Handled(1, 1, 1)] && s2.irqCount == 1 && s2.rerun && s2.dev == s1.dev;
    ThreadEnds(s2);
    var s3 := Run(s2, THREAD_ENDS);
    assert s3.thread.Woken? && s3.dev == Regs(0, 1, 0, 1, false);
    ThreadReads(s3);
    RunCat(s0, FIRST_EVENT + Storm(2), THREAD_READS);
    RunCat(s0, FIRST_EVENT + Storm(2) + THREAD_READS, THREAD_ENDS);
    RunCat(s0, FIRST_EVENT + Storm(2) + THREAD_READS + THREAD_ENDS, THREAD_READS);
  }

  ghost predicate CountsOnce(oneshot: bool) {
    forall dev: Regs, acts: seq<Action> ::
      Sound(dev) ==> CountOk(Run(Probing(dev, oneshot), acts))
  }

  /** Exactly-once counting, in every run, is what the flag buys: it holds if and only if the
      interrupt is requested with IRQF_ONESHOT. */
  lemma CountsOnceIffOneshot(oneshot: bool)
    ensures CountsOnce(oneshot) <==> oneshot
  {
    if oneshot {
      forall dev: Regs, acts: seq<Action> | Sound(dev) ensures CountOk(Run(Probing(dev, oneshot), acts)) {
        BellKeepsInv(dev, acts);
      }
    } else {
      DoubleCountWithoutOneshot();
      assert !CountOk(Run(Probing(Realized(), false), TWICE));
    }
  }
}
