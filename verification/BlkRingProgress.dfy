/** Progress on the byte ring: every call and every drain that is begun comes to its end when
    its own side gets enough turns, whatever the other side does between them.
 */
module BlkRingProgress {
  import opened BlkRingProtocol
  import opened BlkRing
  import opened Word

  datatype Side = Producer | Consumer

  /** One turn: the side does its next step, or the other side does something. */
  datatype Turn = Mine | Other(a: Action)

  /** The first byte of the span not copied yet, or its length. */
  function Missing(done: set<nat>, len: nat): (k: nat)
    ensures k <= len
    ensures k < len ==> k !in done
    ensures k == len ==> forall i :: 0 <= i < len ==> i in done
  {
    if len == 0 then 0
    else
      var k := Missing(done, len - 1);
      if k < len - 1 || len - 1 !in done then k else len
  }

  function NextOfCall(p: BlkRingProtocol.Producer): Action {
    match p
    case Idle => Produce([])
    case Locked(_) => ReadHead
    case HeadRead(_, _) => ReadTail
    case TailRead(_, _, _, _) => Size
    case Copying(_, _, len, _, done) => var k := Missing(done, len); if k < len then CopyByte(k) else Publish
  }

  function NextOfDrain(c: BlkRingProtocol.Consumer): Action {
    match c
    case Outside => BeginDrain
    case Testing => Test
    case Entered => LoadTail
    case HaveTail(_) => LoadHead
    case Emitting(_, _, len, _, sent) => if sent < len then EmitByte else Release
  }

  function NextOf(s: State, who: Side): Action {
    if who.Producer? then NextOfCall(s.prod) else NextOfDrain(s.cons)
  }

  /** What may come between the turns: the other side, and for a drain also a call, as long as it
      does not publish. */
  predicate Foreign(who: Side, a: Action) {
    if who.Producer? then !ByProducer(a) else ByProducer(a) && !a.Publish?
  }

  function ActionOf(s: State, who: Side, t: Turn): Action {
    if t.Mine? then NextOf(s, who) else t.a
  }

  predicate Fair(who: Side, sched: seq<Turn>) {
    forall i :: 0 <= i < |sched| && sched[i].Other? ==> Foreign(who, sched[i].a)
  }

  ghost function Drive(s: State, who: Side, sched: seq<Turn>): (t: State)
    requires InRange(s)
    ensures InRange(t)
    decreases |sched|
  {
    if sched == [] then s
    else
      StepKeepsRange(s, ActionOf(s, who, sched[0]));
      Drive(Step(s, ActionOf(s, who, sched[0])), who, sched[1..])
  }

  function Turns(sched: seq<Turn>): nat {
    if sched == [] then 0 else (if sched[0].Mine? then 1 else 0) + Turns(sched[1..])
  }

  function Todo(len: nat, done: set<nat>): set<nat> { set k: nat | k < len && k !in done }

  lemma {:induction false} AllTodo(len: nat)
    ensures |Todo(len, {})| == len
  {
    if len > 0 {
      AllTodo(len - 1);
      assert Todo(len, {}) == Todo(len - 1, {}) + {len - 1};
    }
  }

  lemma OneDone(len: nat, done: set<nat>, k: nat)
    requires k < len && k !in done
    ensures |Todo(len, done + {k})| == |Todo(len, done)| - 1
  {
    assert Todo(len, done + {k}) == Todo(len, done) - {k};
  }

  /** Producer turns left until the call in progress is finished. */
  function CallLeft(p: BlkRingProtocol.Producer): nat {
    match p
    case Idle => 0
    case Locked(src) => |src| + 4
    case HeadRead(src, _) => |src| + 3
    case TailRead(src, _, _, _) => |src| + 2
    case Copying(_, _, len, _, done) => |Todo(len, done)| + 1
  }

  /** Turns to drain a ring from `tail`, `bytes` of it, with the head where it is. */
  function Rest(tail: nat, head: nat, bytes: int): int { 4 * Passes(tail, head) + bytes }

  /** Consumer turns left until the drain in progress is over, `bytes` being unread. */
  function DrainLeft(c: BlkRingProtocol.Consumer, tail: nat, head: nat, bytes: int): int {
    match c
    case Outside => 0
    case Testing => Rest(tail, head, bytes) + 1
    case Entered => Rest(tail, head, bytes)
    case HaveTail(_) => Rest(tail, head, bytes) - 1
    case Emitting(_, _, len, next, sent) => len - sent + 2 + Rest(next, head, bytes - len)
  }

  ghost function Left(s: State, who: Side): int
    requires InRange(s)
  {
    if who.Producer? then CallLeft(s.prod) else DrainLeft(s.cons, s.tail, s.head, Occ(s))
  }

  lemma SizeGetsCloser(s: State)
    requires InRange(s) && s.prod.TailRead?
    ensures CallLeft(Sized(s).prod) < CallLeft(s.prod)
  {
    AllTodo(Min(|s.prod.src|, FreeSpace(|s.data|, s.prod.head, s.prod.tail)));
  }

  lemma CallGetsCloser(s: State)
    requires InRange(s) && !s.prod.Idle?
    ensures CallLeft(Step(s, NextOfCall(s.prod)).prod) < CallLeft(s.prod)
  {
    match s.prod
    case TailRead(_, _, _, _) => SizeGetsCloser(s);
    case Copying(_, _, len, _, done) =>
      if Missing(done, len) < len {
        OneDone(len, done, Missing(done, len));
      }
    case _ =>
  }

  /** The call in progress, or the entry it left in the log once finished. */
  ghost predicate CallOf(s: State, src: seq<byte>, log: seq<Call>) {
    if s.prod.Idle? then |s.log| == |log| + 1 && s.log[..|log|] == log && s.log[|log|].src == src
    else s.log == log && s.prod.src == src
  }

  lemma CallKeepsSource(s: State, src: seq<byte>, log: seq<Call>)
    requires InRange(s) && !s.prod.Idle? && CallOf(s, src, log)
    ensures CallOf(Step(s, NextOfCall(s.prod)), src, log)
  {
  }

  lemma DrainLeavesCall(s: State, a: Action)
    requires InRange(s) && !ByProducer(a)
    ensures Step(s, a).prod == s.prod && Step(s, a).log == s.log
  {
  }

  /** A pass begun on the current head is the first of those still needed. */
  lemma BranchIsPass(size: nat, tail: nat, head: nat)
    requires tail < size && head < size && tail != head
    ensures var c := Branch(size, tail, head);
            c.len > 0 && Passes(c.next, head) == Passes(tail, head) - 1
  {
  }

  lemma ReleaseGetsCloser(s: State)
    requires InRange(s) && ConsumerOk(s) && s.cons.Emitting? && s.cons.sent == s.cons.len
    ensures InRange(Step(s, Release)) && Left(Step(s, Release), Consumer) == Left(s, Consumer) - 1
  {
    ReleaseShrinks(s);
  }

  lemma DrainGetsCloser(s: State)
    requires InRange(s) && ConsumerOk(s) && !s.cons.Outside? && InRange(Step(s, NextOfDrain(s.cons)))
    ensures Left(Step(s, NextOfDrain(s.cons)), Consumer) < Left(s, Consumer)
  {
    match s.cons
    case Emitting(_, _, len, next, sent) =>
      if sent == len {
        ReleaseGetsCloser(s);
      }
    case HaveTail(_) => BranchIsPass(|s.data|, s.tail, s.head);
    case _ =>
  }

  lemma DrainEndsEmpty(s: State)
    requires InRange(s) && StreamOk(s) && !s.cons.Outside?
    ensures Step(s, NextOfDrain(s.cons)).cons.Outside? ==> s.out == Accepted(s.log)
  {
    if s.cons.Testing? {
      EmptyRingIsDrained(s);
    }
  }

  lemma CallLeavesDrain(s: State, a: Action)
    requires InRange(s) && Foreign(Consumer, a)
    ensures var s' := Step(s, a);
            s'.cons == s.cons && s'.head == s.head && s'.tail == s.tail && |s'.data| == |s.data|
  {
  }

  /** The call is over and logged with its argument. */
  ghost predicate CallDone(s: State, src: seq<byte>, log: seq<Call>) { s.prod.Idle? && CallOf(s, src, log) }

  /** The drain is over and had put out everything accepted. */
  ghost predicate DrainDone(s: State) { s.cons.Outside? && s.out == Accepted(s.log) }

  ghost predicate Done(s: State, who: Side, src: seq<byte>, log: seq<Call>) {
    if who.Producer? then CallDone(s, src, log) else DrainDone(s)
  }

  ghost predicate Pending(s: State, who: Side, src: seq<byte>, log: seq<Call>) {
    if who.Producer? then !s.prod.Idle? && CallOf(s, src, log) else !s.cons.Outside?
  }

  lemma CallTurn(s: State, src: seq<byte>, log: seq<Call>)
    requires InRange(s) && !s.prod.Idle? && CallOf(s, src, log)
    ensures var t := Step(s, NextOfCall(s.prod)); CallOf(t, src, log) && CallLeft(t.prod) < CallLeft(s.prod)
  {
    CallGetsCloser(s);
    CallKeepsSource(s, src, log);
  }

  lemma DrainTurn(s: State)
    requires InRange(s) && ConsumerOk(s) && StreamOk(s) && !s.cons.Outside?
    requires InRange(Step(s, NextOfDrain(s.cons)))
    ensures var t := Step(s, NextOfDrain(s.cons));
            && (t.cons.Outside? ==> t.out == Accepted(t.log))
            && Left(t, Consumer) < Left(s, Consumer)
  {
    DrainGetsCloser(s);
    DrainEndsEmpty(s);
  }

  lemma MyTurn(s: State, who: Side, src: seq<byte>, log: seq<Call>)
    requires Inv(s) && Pending(s, who, src, log)
    ensures var t := Step(s, NextOf(s, who));
            Inv(t) && (Done(t, who, src, log) || (Pending(t, who, src, log) && Left(t, who) < Left(s, who)))
  {
    StepKeepsInv(s, NextOf(s, who));
    if who.Producer? {
      CallTurn(s, src, log);
    } else {
      DrainTurn(s);
    }
  }

  lemma OtherTurn(s: State, who: Side, a: Action, src: seq<byte>, log: seq<Call>)
    requires Inv(s) && Pending(s, who, src, log) && Foreign(who, a)
    ensures var t := Step(s, a); Inv(t) && Pending(t, who, src, log) && Left(t, who) == Left(s, who)
  {
    StepKeepsInv(s, a);
    if who.Producer? {
      DrainLeavesCall(s, a);
    } else {
      CallLeavesDrain(s, a);
    }
  }

  /** Done at some moment of the schedule, after at most `turns` turns of its own side. */
  ghost predicate DoneWithin(s: State, who: Side, src: seq<byte>, log: seq<Call>, sched: seq<Turn>, turns: int)
    requires InRange(s)
  {
    exists k :: 0 <= k <= |sched| && Turns(sched[..k]) <= turns && Done(Drive(s, who, sched[..k]), who, src, log)
  }

  lemma LongerIsWithin(s: State, sched: seq<Turn>, turns: int, turns': int)
    requires InRange(s) && turns <= turns' && DoneWithin(s, Consumer, [], [], sched, turns)
    ensures DoneWithin(s, Consumer, [], [], sched, turns')
  {
    var k :| 0 <= k <= |sched| && Turns(sched[..k]) <= turns
             && Done(Drive(s, Consumer, sched[..k]), Consumer, [], []);
    assert Turns(sched[..k]) <= turns';
  }

  lemma DriveOn(s: State, who: Side, sched: seq<Turn>, k: nat)
    requires InRange(s) && k < |sched| && InRange(Step(s, ActionOf(s, who, sched[0])))
    ensures Drive(s, who, sched[..k + 1]) == Drive(Step(s, ActionOf(s, who, sched[0])), who, sched[1..][..k])
    ensures Turns(sched[..k + 1]) == Turns(sched[1..][..k]) + if sched[0].Mine? then 1 else 0
  {
    assert sched[..k + 1][1..] == sched[1..][..k];
  }

  lemma LaterIsWithin(s: State, who: Side, src: seq<byte>, log: seq<Call>, sched: seq<Turn>, turns: int)
    requires InRange(s) && sched != [] && InRange(Step(s, ActionOf(s, who, sched[0])))
    requires DoneWithin(Step(s, ActionOf(s, who, sched[0])), who, src, log, sched[1..], turns)
    ensures DoneWithin(s, who, src, log, sched, turns + if sched[0].Mine? then 1 else 0)
  {
    var s' := Step(s, ActionOf(s, who, sched[0]));
    var k :| 0 <= k <= |sched[1..]| && Turns(sched[1..][..k]) <= turns
             && Done(Drive(s', who, sched[1..][..k]), who, src, log);
    DriveOn(s, who, sched, k);
  }

  lemma PendingIsLeft(s: State, who: Side, src: seq<byte>, log: seq<Call>)
    requires InRange(s) && ConsumerOk(s) && Pending(s, who, src, log)
    ensures Left(s, who) > 0
  {
  }

  lemma DrainLeftBound(s: State)
    requires InRange(s) && ConsumerOk(s)
    ensures Left(s, Consumer) <= |s.data| + 9
  {
  }

  lemma {:induction false} SoonDone(s: State, who: Side, src: seq<byte>, log: seq<Call>, sched: seq<Turn>)
    requires Inv(s) && Pending(s, who, src, log) && Fair(who, sched) && Turns(sched) >= Left(s, who)
    requires Left(s, who) > 0
    ensures DoneWithin(s, who, src, log, sched, Left(s, who))
    decreases |sched|
  {
    var s' := Step(s, ActionOf(s, who, sched[0]));
    assert Fair(who, sched[1..]);
    if sched[0].Mine? {
      MyTurn(s, who, src, log);
      if Done(s', who, src, log) {
        assert Drive(s', who, sched[1..][..0]) == s';
      } else {
        PendingIsLeft(s', who, src, log);
        SoonDone(s', who, src, log, sched[1..]);
      }
    } else {
      OtherTurn(s, who, sched[0].a, src, log);
      SoonDone(s', who, src, log, sched[1..]);
    }
    LaterIsWithin(s, who, src, log, sched, if sched[0].Mine? then Left(s, who) - 1 else Left(s, who));
  }

  lemma DrainBegins(s: State)
    requires InRange(s) && s.cons.Outside?
    ensures Step(s, BeginDrain).cons.Testing?
  {
  }

  lemma DrainEndsWithin(s: State, sched: seq<Turn>)
    requires Inv(s) && s.cons.Testing? && Fair(Consumer, sched) && Turns(sched) >= |s.data| + 9
    ensures DoneWithin(s, Consumer, [], [], sched, |s.data| + 9)
  {
    DrainLeftBound(s);
    PendingIsLeft(s, Consumer, [], []);
    SoonDone(s, Consumer, [], [], sched);
    LongerIsWithin(s, sched, Left(s, Consumer), |s.data| + 9);
  }

  /** Every produce call that is made is finished, and logged with its argument, within
      length + 4 producer turns, whatever the consumer does between them. */
  lemma {:induction false} EveryCallFinishes(size: nat, acts: seq<Action>, src: seq<byte>, sched: seq<Turn>)
    requires 0 < size < SIZE_LIMIT && Run(size, acts).prod.Idle?
    requires Fair(Producer, sched) && Turns(sched) >= |src| + 4
    ensures DoneWithin(Run(size, acts + [Produce(src)]), Producer, src, Run(size, acts).log, sched, |src| + 4)
  {
    RunSnoc(size, acts, Produce(src));
    RunKeepsInv(size, acts + [Produce(src)]);
    SoonDone(Run(size, acts + [Produce(src)]), Producer, src, Run(size, acts).log, sched);
  }

  /** Every drain that is begun comes to its end, with everything accepted put out, within
      size + 9 consumer turns, if no new head is published meanwhile. */
  lemma {:induction false} EveryDrainFinishes(size: nat, acts: seq<Action>, sched: seq<Turn>)
    requires 0 < size < SIZE_LIMIT && Run(size, acts).cons.Outside?
    requires Fair(Consumer, sched) && Turns(sched) >= size + 9
    ensures DoneWithin(Run(size, acts + [BeginDrain]), Consumer, [], [], sched, size + 9)
  {
    RunSnoc(size, acts, BeginDrain);
    RunKeepsInv(size, acts + [BeginDrain]);
    DrainBegins(Run(size, acts));
    DrainEndsWithin(Run(size, acts + [BeginDrain]), sched);
  }
}
