/** chardev/ioctl/charioctl.c with several processes at once: set-message and get-message claim
    the `already_open` flag, a plain `write` does not. Each access to the message buffer is a
    step of its own; the user's memory is the caller's and does not change under it.
 */
module CharProtocol {
  import opened Word
  import opened CharMessage

  datatype RawProc =
    | Idle
    | Setting(s: seq<byte>, next: nat)         // set-message, storing byte `next`
    | Looking                                  // get-message, before its first test
    | Getting(got: seq<byte>, tested: bool)    // get-message, testing or copying byte |got|
    | Writing(src: seq<byte>, next: nat)       // plain write

  /** Where each call is. Byte 80 of the message is never stored to, so a get-message stops there
      at the latest. */
  predicate ProcOk(q: RawProc) {
    match q
    case Setting(s, next) => NulFree(s) && next <= SetLength(|s|)
    case Getting(got, tested) => |got| <= BUF_LEN && (tested ==> |got| < BUF_LEN)
    case Writing(src, next) => next <= Min(|src|, BUF_LEN)
    case _ => true
  }

  type Proc = q: RawProc | ProcOk(q) witness Idle

  type Buffer = b: seq<byte> | Terminated(b) witness seq(BUF_LEN + 1, _ => 0)

  /** A finished get-message: what it returned; and, as history, the string last set, whether a
      plain write had stored a byte since that set began, and whether what it returned was the
      message at any one moment while it ran. */
  datatype Get = Get(text: seq<byte>, last: seq<byte>, stained: bool, whole: bool)

  /** `seen`: every message there has been since the current get-message began. */
  datatype State = State(
    message: Buffer, busy: bool, procs: seq<Proc>,
    last: seq<byte>, stained: bool, seen: seq<seq<byte>>, gets: seq<Get>)

  /** Start a call (an ioctl is turned away with -EBUSY while the flag is taken), or make the next
      access of the one in progress. */
  datatype Action = Set(p: nat, s: seq<byte>) | Ask(p: nat) | Write(p: nat, src: seq<byte>) | Move(p: nat)

  function Init(n: nat): State {
    State(seq(BUF_LEN + 1, _ => 0), false, seq(n, _ => Idle), [], false, [], [])
  }

  function Finish(s: State, p: nat, text: seq<byte>): State
    requires p < |s.procs|
  {
    s.(busy := false, procs := s.procs[p := Idle], gets := s.gets + [Get(text, s.last, s.stained, text in s.seen)])
  }

  function MoveSet(s: State, p: nat): State
    requires p < |s.procs| && s.procs[p].Setting?
  {
    var Setting(str, next) := s.procs[p];
    if next < SetLength(|str|) then
      s.(message := s.message[next := (str + [0])[next]], procs := s.procs[p := Setting(str, next + 1)])
    else
      s.(busy := false, procs := s.procs[p := Idle],
         last := if str == [] then s.last else str[..Min(|str|, BUF_LEN)])
  }

  /** The test and the copy of one byte are two separate loads. */
  function MoveGet(s: State, p: nat): State
    requires p < |s.procs| && s.procs[p].Getting?
  {
    var Getting(got, tested) := s.procs[p];
    if tested then s.(procs := s.procs[p := Getting(got + [s.message[|got|]], false)])
    else if s.message[|got|] != 0 then s.(procs := s.procs[p := Getting(got, true)])
    else Finish(s, p, got)
  }

  function MoveWrite(s: State, p: nat): State
    requires p < |s.procs| && s.procs[p].Writing?
  {
    var Writing(src, next) := s.procs[p];
    if next < Min(|src|, BUF_LEN) then
      var message := s.message[next := src[next]];
      s.(message := message, procs := s.procs[p := Writing(src, next + 1)],
         stained := true, seen := s.seen + [Text(message)])
    else s.(procs := s.procs[p := Idle])
  }

  function Step(s: State, a: Action): State
  {
    if a.p >= |s.procs| then s
    else
      match a
      case Set(p, str) =>
        if s.procs[p].Idle? && !s.busy && NulFree(str) then
          s.(busy := true, procs := s.procs[p := Setting(str, 0)], stained := s.stained && str == [])
        else s
      case Ask(p) =>
        if s.procs[p].Idle? && !s.busy then
          s.(busy := true, procs := s.procs[p := Looking], seen := [Text(s.message)])
        else s
      case Write(p, src) => if s.procs[p].Idle? then s.(procs := s.procs[p := Writing(src, 0)]) else s
      case Move(p) =>
        match s.procs[p]
        case Idle => s
        case Setting(_, _) => MoveSet(s, p)
        case Looking =>
          if s.message[0] == 0 then Finish(s, p, []) else s.(procs := s.procs[p := Getting([], false)])
        case Getting(_, _) => MoveGet(s, p)
        case Writing(_, _) => MoveWrite(s, p)
  }

  // ---------------------------------------------------------------- invariant

  predicate HoldsFlag(q: Proc) { q.Setting? || q.Looking? || q.Getting? }

  /** One ioctl at a time, and the flag says whether there is one. */
  ghost predicate Exclusive(procs: seq<Proc>, busy: bool) {
    && (forall p, q :: 0 <= p < |procs| && 0 <= q < |procs| && HoldsFlag(procs[p]) && HoldsFlag(procs[q]) ==> p == q)
    && (busy <==> exists p :: 0 <= p < |procs| && HoldsFlag(procs[p]))
  }

  /** A call that changes the message is in progress. */
  predicate Replacing(q: Proc) { q.Setting? && q.s != [] }

  /** What a call has done so far, if no plain write interfered. */
  predicate Progress(q: Proc, message: seq<byte>, last: seq<byte>) {
    match q
    case Setting(str, next) => str == [] || (str + [0])[..Min(next, |str| + 1)] <= message
    case Getting(got, tested) => got <= last && (tested ==> |got| < |last|)
    case _ => true
  }

  ghost predicate Clean(s: State) {
    && (forall p :: 0 <= p < |s.procs| ==> Progress(s.procs[p], s.message, s.last))
    && ((forall p :: 0 <= p < |s.procs| ==> !Replacing(s.procs[p])) ==> Text(s.message) == s.last)
  }

  ghost predicate Inv(s: State) {
    && Exclusive(s.procs, s.busy)
    && (!s.stained ==> Clean(s))
    && forall g :: g in s.gets && !g.stained ==> g.text == g.last
  }

  lemma StepUpdates(s: State, a: Action)
    requires a.p < |s.procs|
    ensures var s' := Step(s, a);
            var q := s'.procs[a.p];
            && |s'.procs| == |s.procs| && s'.procs == s.procs[a.p := q]
            && if HoldsFlag(s.procs[a.p]) == HoldsFlag(q) then s'.busy == s.busy
               else s'.busy == HoldsFlag(q) && (HoldsFlag(q) ==> !s.busy)
  {
  }

  /** A process claims a free flag, gives it up, or goes on with or without it. */
  lemma UpdateKeepsExclusive(procs: seq<Proc>, busy: bool, p: nat, q: Proc, busy': bool)
    requires Exclusive(procs, busy) && p < |procs|
    requires if HoldsFlag(procs[p]) == HoldsFlag(q) then busy' == busy
             else busy' == HoldsFlag(q) && (HoldsFlag(q) ==> !busy)
    ensures Exclusive(procs[p := q], busy')
  {
    var after := procs[p := q];
    if HoldsFlag(q) {
      assert HoldsFlag(after[p]);
    } else if busy' {
      var h :| 0 <= h < |procs| && HoldsFlag(procs[h]);
      assert HoldsFlag(after[h]);
    }
  }

  lemma StepKeepsExclusive(s: State, a: Action)
    requires Exclusive(s.procs, s.busy)
    ensures Exclusive(Step(s, a).procs, Step(s, a).busy)
  {
    if a.p < |s.procs| {
      StepUpdates(s, a);
      UpdateKeepsExclusive(s.procs, s.busy, a.p, Step(s, a).procs[a.p], Step(s, a).busy);
    }
  }

  /** Whoever holds the flag is alone with it. */
  lemma OthersAreOut(s: State, p: nat)
    requires Exclusive(s.procs, s.busy) && p < |s.procs| && HoldsFlag(s.procs[p])
    ensures forall q :: 0 <= q < |s.procs| && q != p ==> !HoldsFlag(s.procs[q])
  {
  }

  /** The string is complete in the buffer when the last store is done. */
  lemma StoredIsText(message: seq<byte>, str: seq<byte>)
    requires Terminated(message) && NulFree(str) && str != []
    requires (str + [0])[..SetLength(|str|)] <= message
    ensures Text(message) == str[..Min(|str|, BUF_LEN)]
  {
    TextIs(message, str[..Min(|str|, BUF_LEN)]);
  }

  lemma StoreKeepsClean(s: State, p: nat)
    requires Exclusive(s.procs, s.busy) && Clean(s) && p < |s.procs| && s.procs[p].Setting?
    requires s.procs[p].next < SetLength(|s.procs[p].s|)
    ensures Clean(MoveSet(s, p))
  {
    var Setting(str, next) := s.procs[p];
    var s' := MoveSet(s, p);
    OthersAreOut(s, p);
    assert (str + [0])[..next] <= s.message by {
      assert Progress(s.procs[p], s.message, s.last);
    }
    assert (str + [0])[..next + 1] <= s'.message;
    assert Replacing(s'.procs[p]);
  }

  lemma SetMoveKeepsClean(s: State, p: nat)
    requires Exclusive(s.procs, s.busy) && Clean(s) && p < |s.procs| && s.procs[p].Setting?
    ensures Clean(MoveSet(s, p))
  {
    var Setting(str, next) := s.procs[p];
    if next < SetLength(|str|) {
      StoreKeepsClean(s, p);
    } else {
      OthersAreOut(s, p);
      assert Progress(s.procs[p], s.message, s.last);
      if str != [] {
        StoredIsText(s.message, str);
      }
    }
  }

  lemma NoneReplacing(s: State, p: nat)
    requires Exclusive(s.procs, s.busy) && Clean(s) && p < |s.procs| && HoldsFlag(s.procs[p]) && !s.procs[p].Setting?
    ensures Text(s.message) == s.last
  {
    OthersAreOut(s, p);
  }

  lemma GetMoveKeepsClean(s: State, p: nat)
    requires Exclusive(s.procs, s.busy) && Clean(s) && p < |s.procs| && s.procs[p].Getting?
    ensures Clean(MoveGet(s, p))
    ensures s.procs[p].tested || s.message[|s.procs[p].got|] != 0 || s.procs[p].got == s.last
  {
    NoneReplacing(s, p);
    assert Progress(s.procs[p], s.message, s.last);
  }

  /** A set-message that will replace the message starts from any contents. */
  lemma SetStartsClean(s: State, p: nat, str: seq<byte>)
    requires Exclusive(s.procs, s.busy) && !s.busy
    requires p < |s.procs| && s.procs[p].Idle? && NulFree(str) && str != []
    ensures Clean(Step(s, Set(p, str)))
  {
    var s' := Step(s, Set(p, str));
    assert forall q :: 0 <= q < |s.procs| ==> !HoldsFlag(s.procs[q]);
    assert Replacing(s'.procs[p]);
  }

  /** Steps that leave message and history alone, and neither enter nor leave a set or get. */
  lemma FrameKeepsClean(s: State, s': State, p: nat)
    requires Clean(s) && p < |s.procs| == |s'.procs| && s'.procs == s.procs[p := s'.procs[p]]
    requires s'.message == s.message && s'.last == s.last
    requires !Replacing(s.procs[p]) && !Replacing(s'.procs[p])
    requires Progress(s'.procs[p], s.message, s.last)
    ensures Clean(s')
  {
    if forall q :: 0 <= q < |s.procs| ==> !Replacing(s'.procs[q]) {
      assert forall q :: 0 <= q < |s.procs| && q != p ==> s.procs[q] == s'.procs[q];
    }
  }

  lemma MoveKeepsClean(s: State, p: nat)
    requires Exclusive(s.procs, s.busy) && Clean(s) && p < |s.procs|
    requires !Step(s, Move(p)).stained
    ensures Clean(Step(s, Move(p)))
  {
    match s.procs[p]
    case Idle =>
    case Setting(_, _) => SetMoveKeepsClean(s, p);
    case Getting(_, _) => GetMoveKeepsClean(s, p);
    case Looking => FrameKeepsClean(s, Step(s, Move(p)), p);
    case Writing(_, _) => FrameKeepsClean(s, Step(s, Move(p)), p);
  }

  lemma StepKeepsClean(s: State, a: Action)
    requires Inv(s) && !Step(s, a).stained
    ensures Clean(Step(s, a))
  {
    if Step(s, a) != s {
      match a
      case Set(p, str) =>
        if str != [] {
          SetStartsClean(s, p, str);
        } else {
          FrameKeepsClean(s, Step(s, a), p);
        }
      case Move(p) => MoveKeepsClean(s, p);
      case _ => FrameKeepsClean(s, Step(s, a), a.p);
    }
  }

  /** A get-message ends where the text does. */
  lemma LookKeepsLast(s: State, p: nat)
    requires Inv(s) && p < |s.procs| && s.procs[p].Looking? && s.message[0] == 0 && !s.stained
    ensures s.last == []
  {
    NoneReplacing(s, p);
  }

  lemma StepKeepsGets(s: State, a: Action)
    requires Inv(s)
    ensures forall g :: g in Step(s, a).gets && !g.stained ==> g.text == g.last
  {
    if a.Move? && a.p < |s.procs| && !s.stained {
      if s.procs[a.p].Getting? {
        GetMoveKeepsClean(s, a.p);
      } else if s.procs[a.p].Looking? && s.message[0] == 0 {
        LookKeepsLast(s, a.p);
      }
    }
  }

  lemma StepKeepsInv(s: State, a: Action)
    requires Inv(s)
    ensures Inv(Step(s, a)) && |Step(s, a).procs| == |s.procs|
  {
    StepKeepsExclusive(s, a);
    StepKeepsGets(s, a);
    if !Step(s, a).stained {
      StepKeepsClean(s, a);
    }
  }

  // ---------------------------------------------------------------- runs

  function RunFrom(s: State, acts: seq<Action>): (t: State)
    ensures |t.procs| == |s.procs|
    decreases |acts|
  {
    if acts == [] then s
    else
      RunFrom(Step(s, acts[0]), acts[1..])
  }

  /** Any run of n processes. */
  function Run(n: nat, acts: seq<Action>): (t: State)
    ensures |t.procs| == n
  {
    RunFrom(Init(n), acts)
  }

  lemma {:induction false} RunKeepsInv(s: State, acts: seq<Action>)
    requires Inv(s)
    ensures Inv(RunFrom(s, acts))
    decreases |acts|
  {
    if acts != [] {
      StepKeepsInv(s, acts[0]);
      RunKeepsInv(Step(s, acts[0]), acts[1..]);
    }
  }

  lemma InitKeepsInv(n: nat)
    ensures Inv(Init(n))
  {
  }

  /** In every run of any number of processes: a get-message that finishes before any plain
      write has stored a byte since the last set-message began returns the string set, cut to
      80 characters. */
  lemma GetReturnsLastSet(n: nat, acts: seq<Action>, i: nat)
    requires i < |Run(n, acts).gets| && !Run(n, acts).gets[i].stained
    ensures Run(n, acts).gets[i].text == Run(n, acts).gets[i].last
  {
    InitKeepsInv(n);
    RunKeepsInv(Init(n), acts);
    assert Run(n, acts).gets[i] in Run(n, acts).gets;
  }

  // ---------------------------------------------------------------- what plain writes cost

  predicate NoWrites(acts: seq<Action>) { forall i :: 0 <= i < |acts| ==> !acts[i].Write? }

  /** Nobody writes, and a get-message in progress has seen the string last set. */
  ghost predicate Undisturbed(s: State) {
    && !s.stained
    && (forall p :: 0 <= p < |s.procs| ==>
          !s.procs[p].Writing? && (s.procs[p].Looking? || s.procs[p].Getting? ==> s.last in s.seen))
    && forall g :: g in s.gets ==> !g.stained && g.whole
  }

  lemma FinishesWhole(s: State, a: Action, g: Get)
    requires Inv(s) && Undisturbed(s) && g in Step(s, a).gets
    ensures !g.stained && g.whole
  {
    StepKeepsGets(s, a);
  }

  lemma AskSeesLast(s: State)
    requires Inv(s) && !s.stained && !s.busy
    ensures Text(s.message) == s.last
  {
    assert forall q :: 0 <= q < |s.procs| ==> !HoldsFlag(s.procs[q]);
  }

  lemma MoveKeepsSeen(s: State, a: Action)
    requires Inv(s) && Undisturbed(s) && !a.Write? && a.p < |s.procs|
    ensures var s' := Step(s, a);
            && !s'.stained && !s'.procs[a.p].Writing?
            && (s'.procs[a.p].Looking? || s'.procs[a.p].Getting? ==> s'.last in s'.seen)
  {
    if a.Ask? && !s.busy {
      AskSeesLast(s);
    }
  }

  /** While another process holds the flag, only that one can change what was set or seen. */
  lemma OthersKeepSeen(s: State, a: Action, q: nat)
    requires Inv(s) && Undisturbed(s) && a.p < |s.procs| && q < |s.procs| && q != a.p && HoldsFlag(s.procs[q])
    ensures Step(s, a).last == s.last && Step(s, a).seen == s.seen
  {
    assert s.busy && !HoldsFlag(s.procs[a.p]);
  }

  lemma StepStaysUndisturbed(s: State, a: Action)
    requires Inv(s) && Undisturbed(s) && !a.Write?
    ensures Undisturbed(Step(s, a))
  {
    var s' := Step(s, a);
    if a.p < |s.procs| {
      StepUpdates(s, a);
      MoveKeepsSeen(s, a);
      forall q | 0 <= q < |s.procs| && q != a.p && HoldsFlag(s.procs[q])
        ensures s'.last == s.last && s'.seen == s.seen
      {
        OthersKeepSeen(s, a, q);
      }
      forall g | g in s'.gets ensures !g.stained && g.whole {
        FinishesWhole(s, a, g);
      }
    }
  }

  lemma {:induction false} StaysUndisturbed(s: State, acts: seq<Action>)
    requires Inv(s) && Undisturbed(s) && NoWrites(acts)
    ensures Undisturbed(RunFrom(s, acts))
    decreases |acts|
  {
    if acts != [] {
      StepStaysUndisturbed(s, acts[0]);
      StepKeepsInv(s, acts[0]);
      StaysUndisturbed(Step(s, acts[0]), acts[1..]);
    }
  }

  lemma {:induction false} RunTwice(s: State, a: seq<Action>, b: seq<Action>)
    ensures RunFrom(s, a + b) == RunFrom(RunFrom(s, a), b)
    decreases |a|
  {
    if a == [] {
      assert a + b == b;
    } else {
      assert (a + b)[1..] == a[1..] + b;
      RunTwice(Step(s, a[0]), a[1..], b);
    }
  }

  lemma RunOne(s: State, a: Action)
    ensures RunFrom(s, [a]) == Step(s, a)
  {
    assert [a][1..] == [];
  }

  lemma RunTwo(s: State, a: Action, b: Action)
    ensures RunFrom(s, [a] + [b]) == Step(Step(s, a), b)
  {
    RunOne(s, a);
    RunOne(Step(s, a), b);
    RunTwice(s, [a], [b]);
  }

  lemma RunThree(s: State, a: Action, b: Action, c: Action)
    ensures RunFrom(s, [a] + [b] + [c]) == Step(Step(Step(s, a), b), c)
  {
    RunTwo(s, a, b);
    RunOne(Step(Step(s, a), b), c);
    RunTwice(s, [a] + [b], [c]);
  }

  /** A buffer that holds two characters. */
  function Two(x: byte, y: byte): (m: seq<byte>)
    ensures Terminated(m) && m[0] == x && m[1] == y && m[2] == 0
  {
    [x, y] + seq(BUF_LEN - 1, _ => 0)
  }

  lemma TwoText(x: byte, y: byte)
    requires x != 0 && y != 0
    ensures Text(Two(x, y)) == [x, y]
  {
    TextIs(Two(x, y), [x, y]);
  }

  /** The message is "AA" and process 0 asks, and copies the first byte. */
  const ASK_ONE: seq<Action> := ([Ask(0)] + [Move(0)]) + ([Move(0)] + [Move(0)])

  lemma Looks(s: State)
    requires s.message == Two(65, 65) && !s.busy && s.procs == [Idle, Idle]
    ensures RunFrom(s, [Ask(0)] + [Move(0)]) ==
            s.(busy := true, procs := [Getting([], false), Idle], seen := [[65, 65]])
  {
    TwoText(65, 65);
    RunTwo(s, Ask(0), Move(0));
    assert Step(s, Ask(0)) == s.(busy := true, procs := [Looking, Idle], seen := [[65, 65]]);
  }

  lemma CopiesFirst(s: State)
    requires s.message == Two(65, 65) && s.procs == [Getting([], false), Idle]
    ensures RunFrom(s, [Move(0)] + [Move(0)]) == s.(procs := [Getting([65], false), Idle])
  {
    RunTwo(s, Move(0), Move(0));
    assert Step(s, Move(0)) == s.(procs := [Getting([], true), Idle]);
    assert [] + [s.message[0]] == [65];
  }

  lemma FirstHalf(s: State)
    requires s.message == Two(65, 65) && !s.busy && s.procs == [Idle, Idle]
    ensures RunFrom(s, ASK_ONE) == s.(busy := true, procs := [Getting([65], false), Idle], seen := [[65, 65]])
  {
    Looks(s);
    CopiesFirst(RunFrom(s, [Ask(0)] + [Move(0)]));
    RunTwice(s, [Ask(0)] + [Move(0)], [Move(0)] + [Move(0)]);
  }

  /** Process 1 writes "BB" over it. */
  const WRITE_BB: seq<Action> := [Write(1, [66, 66])] + [Move(1)] + [Move(1)]

  /** One more byte of the plain write makes the message "xy". */
  lemma StoreMakes(s: State, src: seq<byte>, next: nat, x: byte, y: byte)
    requires |s.procs| == 2 && s.procs[1] == Writing(src, next) && next < Min(|src|, BUF_LEN)
    requires s.message[next := src[next]] == Two(x, y) && x != 0 && y != 0
    ensures Step(s, Move(1)) ==
            s.(message := Two(x, y), procs := [s.procs[0], Writing(src, next + 1)],
               stained := true, seen := s.seen + [[x, y]])
  {
    TwoText(x, y);
    assert s.procs[1 := Writing(src, next + 1)] == [s.procs[0], Writing(src, next + 1)];
  }

  lemma Overwritten(s: State)
    requires s.message == Two(65, 65) && s.procs == [Getting([65], false), Idle]
    ensures var t := RunFrom(s, WRITE_BB);
            && t.message == Two(66, 66) && |t.procs| == 2 && t.procs[0] == Getting([65], false)
            && t.stained && t.last == s.last && t.seen == s.seen + [[66, 65]] + [[66, 66]] && t.gets == s.gets
  {
    var bb: seq<byte> := [66, 66];
    RunThree(s, Write(1, bb), Move(1), Move(1));
    var s1 := Step(s, Write(1, bb));
    assert s1 == s.(procs := [Getting([65], false), Writing(bb, 0)]);
    assert s1.message[0 := bb[0]] == Two(66, 65);
    StoreMakes(s1, bb, 0, 66, 65);
    var s2 := Step(s1, Move(1));
    assert s2.message[1 := bb[1]] == Two(66, 66);
    StoreMakes(s2, bb, 1, 66, 66);
  }

  /** Process 0 copies the second byte and finds the end. */
  const ASK_REST: seq<Action> := [Move(0)] + [Move(0)] + [Move(0)]

  lemma SecondHalf(s: State)
    requires s.message == Two(66, 66) && |s.procs| == 2 && s.procs[0] == Getting([65], false)
    ensures RunFrom(s, ASK_REST).gets == s.gets + [Get([65, 66], s.last, s.stained, [65, 66] in s.seen)]
  {
    RunThree(s, Move(0), Move(0), Move(0));
    assert Step(s, Move(0)) == s.(procs := s.procs[0 := Getting([65], true)]);
    assert [65] + [s.message[1]] == [65, 66];
    assert Step(Step(s, Move(0)), Move(0)) == s.(procs := s.procs[0 := Getting([65, 66], false)]);
  }

  /** Process 1 sets "AA" first. */
  const SET_START: seq<Action> := [Set(1, [65, 65])] + [Move(1)] + [Move(1)]

  const SET_END: seq<Action> := [Move(1)] + [Move(1)]

  lemma SetStarts(s: State)
    requires s == Init(2)
    ensures RunFrom(s, SET_START) == s.(message := Two(65, 65), busy := true, procs := [Idle, Setting([65, 65], 2)])
  {
    var aa: seq<byte> := [65, 65];
    RunThree(s, Set(1, aa), Move(1), Move(1));
    var s1 := Step(s, Set(1, aa));
    assert s1 == s.(busy := true, procs := [Idle, Setting(aa, 0)]);
    var s2 := Step(s1, Move(1));
    assert s2 == s1.(message := s.message[0 := 65], procs := [Idle, Setting(aa, 1)]);
    assert s.message[0 := 65][1 := 65] == Two(65, 65);
  }

  lemma SetEnds(s: State)
    requires s.message == Two(65, 65) && s.procs == [Idle, Setting([65, 65], 2)]
    ensures RunFrom(s, SET_END) == s.(busy := false, procs := [Idle, Idle], last := [65, 65])
  {
    var aa: seq<byte> := [65, 65];
    RunTwo(s, Move(1), Move(1));
    assert s.message[2 := 0] == s.message;
    var s1 := Step(s, Move(1));
    assert s1 == s.(procs := [Idle, Setting(aa, 3)]);
    assert aa[..2] == aa;
    assert Step(s1, Move(1)) == s.(busy := false, procs := [Idle, Idle], last := aa);
  }

  lemma AskIsTorn(s: State)
    requires s.message == Two(65, 65) && !s.busy && s.procs == [Idle, Idle]
    ensures RunFrom(s, ASK_ONE + (WRITE_BB + ASK_REST)).gets == s.gets + [Get([65, 66], s.last, true, false)]
  {
    FirstHalf(s);
    RunTwice(s, ASK_ONE, WRITE_BB + ASK_REST);
    var s1 := RunFrom(s, ASK_ONE);
    Overwritten(s1);
    RunTwice(s1, WRITE_BB, ASK_REST);
    var s2 := RunFrom(s1, WRITE_BB);
    SecondHalf(s2);
    assert s2.seen == [[65, 65], [66, 65], [66, 66]];
  }

  const TORN: seq<Action> := SET_START + SET_END + (ASK_ONE + (WRITE_BB + ASK_REST))

  /** Process 1 sets "AA" and then writes "BB" while process 0 asks: process 0 gets "AB", which
      was not the message at any moment. */
  lemma PlainWriteTears()
    ensures Run(2, TORN).gets == [Get([65, 66], [65, 65], true, false)]
  {
    var s := Init(2);
    SetStarts(s);
    RunTwice(s, SET_START, SET_END);
    SetEnds(RunFrom(s, SET_START));
    RunTwice(s, SET_START + SET_END, ASK_ONE + (WRITE_BB + ASK_REST));
    AskIsTorn(RunFrom(s, SET_START + SET_END));
  }

  /** Every get-message, in every run of any number of processes, returns what the message was
      at some one moment while it ran. */
  ghost predicate AlwaysWhole(plainWrites: bool) {
    forall n: nat, acts: seq<Action>, i: nat ::
      (plainWrites || NoWrites(acts)) && i < |Run(n, acts).gets| ==> Run(n, acts).gets[i].whole
  }

  /** The flag protects the message if and only if nobody uses plain write. */
  lemma WholeIffNoPlainWrites(plainWrites: bool)
    ensures AlwaysWhole(plainWrites) <==> !plainWrites
  {
    if plainWrites {
      PlainWriteTears();
      assert !Run(2, TORN).gets[0].whole;
    } else {
      forall n: nat, acts: seq<Action>, i: nat | NoWrites(acts) && i < |Run(n, acts).gets|
        ensures Run(n, acts).gets[i].whole
      {
        InitKeepsInv(n);
        StaysUndisturbed(Init(n), acts);
        assert Run(n, acts).gets[i] in Run(n, acts).gets;
      }
    }
  }

  /** Without plain writes every get-message returns the string last set. */
  lemma IoctlsAreAtomic(n: nat, acts: seq<Action>, i: nat)
    requires NoWrites(acts) && i < |Run(n, acts).gets|
    ensures Run(n, acts).gets[i].text == Run(n, acts).gets[i].last
  {
    InitKeepsInv(n);
    StaysUndisturbed(Init(n), acts);
    RunKeepsInv(Init(n), acts);
    assert Run(n, acts).gets[i] in Run(n, acts).gets;
  }
}
