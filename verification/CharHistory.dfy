/** What the history kept by CharProtocol means, said from the actions of a run alone; that every
    call comes to its end; and that a call nobody disturbs does what CharMessage says it does.
 */
module CharHistory {
  import opened Word
  import opened CharMessage
  import opened CharProtocol

  lemma RunSnoc(n: nat, acts: seq<Action>, a: Action)
    ensures Run(n, acts + [a]) == Step(Run(n, acts), a)
  {
    RunTwice(Init(n), acts, [a]);
    RunOne(Run(n, acts), a);
  }

  lemma RunSplit(n: nat, acts: seq<Action>)
    requires acts != []
    ensures Run(n, acts) == Step(Run(n, acts[..|acts| - 1]), acts[|acts| - 1])
  {
    assert acts == acts[..|acts| - 1] + [acts[|acts| - 1]];
    RunSnoc(n, acts[..|acts| - 1], acts[|acts| - 1]);
  }

  // ---------------------------------------------------------------- from the actions

  /** A set-message that finds its process free and the flag down. */
  predicate LetIn(s: State, a: Action) {
    a.Set? && a.p < |s.procs| && s.procs[a.p].Idle? && !s.busy && NulFree(a.s)
  }

  /** A set-message has just been left. */
  predicate SetEnds(s: State, a: Action, s': State) {
    a.p < |s.procs| == |s'.procs| && s.procs[a.p].Setting? && s'.procs[a.p].Idle?
  }

  /** A plain write has just stored a byte. */
  predicate PlainStore(s: State, a: Action, s': State) {
    a.Move? && a.p < |s.procs| == |s'.procs| && s.procs[a.p].Writing? && s'.procs[a.p].Writing?
  }

  /** The argument of the last set-message let in. */
  function LastTaken(n: nat, acts: seq<Action>): seq<byte> {
    if acts == [] then []
    else
      var init, a := acts[..|acts| - 1], acts[|acts| - 1];
      if LetIn(Run(n, init), a) then a.s else LastTaken(n, init)
  }

  /** The argument of the last set-message that ended, cut to 80 characters; empty ones do not
      count. */
  function LastSet(n: nat, acts: seq<Action>): seq<byte> {
    if acts == [] then []
    else
      var init, a := acts[..|acts| - 1], acts[|acts| - 1];
      var str := LastTaken(n, init);
      if SetEnds(Run(n, init), a, Run(n, acts)) && str != [] then str[..Min(|str|, BUF_LEN)]
      else LastSet(n, init)
  }

  /** A plain write has stored a byte since the last set-message that was not empty began. */
  function Stained(n: nat, acts: seq<Action>): bool {
    if acts == [] then false
    else
      var init, a := acts[..|acts| - 1], acts[|acts| - 1];
      if LetIn(Run(n, init), a) && a.s != [] then false
      else Stained(n, init) || PlainStore(Run(n, init), a, Run(n, acts))
  }

  /** Whoever is in a set-message is in the last one let in. */
  ghost predicate SettingTaken(s: State, taken: seq<byte>) {
    forall p :: 0 <= p < |s.procs| && s.procs[p].Setting? ==> s.procs[p].s == taken
  }

  lemma StepKeepsTaken(s: State, a: Action, taken: seq<byte>)
    requires Exclusive(s.procs, s.busy) && SettingTaken(s, taken)
    ensures SettingTaken(Step(s, a), if LetIn(s, a) then a.s else taken)
  {
    if a.p < |s.procs| {
      StepUpdates(s, a);
    }
  }

  lemma StepKeepsLast(s: State, a: Action, taken: seq<byte>)
    requires SettingTaken(s, taken)
    ensures Step(s, a).last ==
            if SetEnds(s, a, Step(s, a)) && taken != [] then taken[..Min(|taken|, BUF_LEN)] else s.last
  {
  }

  lemma StepKeepsStained(s: State, a: Action)
    ensures Step(s, a).stained ==
            if LetIn(s, a) && a.s != [] then false else s.stained || PlainStore(s, a, Step(s, a))
  {
  }

  /** The history in the state is what the actions say. */
  lemma {:induction false} HistoryIsExact(n: nat, acts: seq<Action>)
    ensures var s := Run(n, acts);
            s.last == LastSet(n, acts) && s.stained == Stained(n, acts) && SettingTaken(s, LastTaken(n, acts))
  {
    if acts != [] {
      var init, a := acts[..|acts| - 1], acts[|acts| - 1];
      HistoryIsExact(n, init);
      RunSplit(n, acts);
      InitKeepsInv(n);
      RunKeepsInv(Init(n), init);
      StepKeepsTaken(Run(n, init), a, LastTaken(n, init));
      StepKeepsLast(Run(n, init), a, LastTaken(n, init));
      StepKeepsStained(Run(n, init), a);
    }
  }

  lemma StepFinishesOne(s: State, a: Action)
    ensures var s' := Step(s, a);
            s'.gets != s.gets ==>
              |s'.gets| == |s.gets| + 1 && s'.gets[..|s.gets|] == s.gets
              && s'.gets[|s.gets|].last == s.last && s'.gets[|s.gets|].stained == s.stained
  {
  }

  /** From the actions alone: when a get-message finishes and no plain write has stored a byte
      since the last set-message began, it returns the argument of the last set-message that
      ended, cut to 80 characters. */
  lemma {:induction false} GetReturnsArgument(n: nat, acts: seq<Action>, p: nat)
    requires Run(n, acts + [Move(p)]).gets != Run(n, acts).gets && !Stained(n, acts)
    ensures var gets, gets' := Run(n, acts).gets, Run(n, acts + [Move(p)]).gets;
            |gets'| == |gets| + 1 && gets'[|gets|].text == LastSet(n, acts)
  {
    RunSnoc(n, acts, Move(p));
    HistoryIsExact(n, acts);
    StepFinishesOne(Run(n, acts), Move(p));
    GetReturnsLastSet(n, acts + [Move(p)], |Run(n, acts).gets|);
  }

  /** So without plain writes every get-message that finishes returns that argument. */
  lemma {:induction false} IoctlsReturnArgument(n: nat, acts: seq<Action>, p: nat)
    requires NoWrites(acts) && Run(n, acts + [Move(p)]).gets != Run(n, acts).gets
    ensures var gets, gets' := Run(n, acts).gets, Run(n, acts + [Move(p)]).gets;
            |gets'| == |gets| + 1 && gets'[|gets|].text == LastSet(n, acts)
  {
    InitKeepsInv(n);
    StaysUndisturbed(Init(n), acts);
    HistoryIsExact(n, acts);
    GetReturnsArgument(n, acts, p);
  }

  // ---------------------------------------------------------------- what a get returns otherwise

  predicate AskLetIn(s: State, a: Action) { a.Ask? && a.p < |s.procs| && s.procs[a.p].Idle? && !s.busy }

  /** The message when the last get-message was let in. */
  function MessageAsked(n: nat, acts: seq<Action>): seq<byte> {
    if acts == [] then []
    else
      var init, a := acts[..|acts| - 1], acts[|acts| - 1];
      if AskLetIn(Run(n, init), a) then Text(Run(n, init).message) else MessageAsked(n, init)
  }

  /** A plain write has stored a byte since then. */
  function Disturbed(n: nat, acts: seq<Action>): bool {
    if acts == [] then false
    else
      var init, a := acts[..|acts| - 1], acts[|acts| - 1];
      if AskLetIn(Run(n, init), a) then false
      else Disturbed(n, init) || PlainStore(Run(n, init), a, Run(n, acts))
  }

  /** A get-message is copying `asked`, which is still the message. */
  predicate Copies(q: Proc, message: seq<byte>, asked: seq<byte>) {
    match q
    case Looking => Text(message) == asked
    case Getting(got, tested) => Text(message) == asked && got <= asked && (tested ==> |got| < |asked|)
    case _ => true
  }

  ghost predicate AllCopy(s: State, asked: seq<byte>) {
    forall p :: 0 <= p < |s.procs| ==> Copies(s.procs[p], s.message, asked)
  }

  lemma AskStartsCopy(s: State, a: Action)
    requires Exclusive(s.procs, s.busy) && AskLetIn(s, a)
    ensures AllCopy(Step(s, a), Text(s.message))
  {
    var s' := Step(s, a);
    forall p | 0 <= p < |s.procs| ensures Copies(s'.procs[p], s'.message, Text(s.message)) {
      assert !HoldsFlag(s.procs[p]);
    }
  }

  /** While one process is in a get-message only a plain write can change the message. */
  lemma OthersKeepMessage(s: State, a: Action, p: nat)
    requires Exclusive(s.procs, s.busy) && a.p < |s.procs| && p < |s.procs| && p != a.p
    requires s.procs[p].Looking? || s.procs[p].Getting?
    requires !PlainStore(s, a, Step(s, a))
    ensures Step(s, a).message == s.message && Step(s, a).procs[p] == s.procs[p]
  {
    assert s.busy && !HoldsFlag(s.procs[a.p]);
    StepUpdates(s, a);
  }

  /** t stands at the start of the message and a zero follows it. */
  predicate StandsIn(t: seq<byte>, message: seq<byte>) {
    && |t| < |message| && message[|t|] == 0
    && forall i :: 0 <= i < |t| ==> message[i] == t[i] && t[i] != 0
  }

  lemma CopyEnds(message: seq<byte>, t: seq<byte>, got: seq<byte>)
    requires StandsIn(t, message) && got <= t && message[|got|] == 0
    ensures got == t
  {
    assert |got| == |t|;
  }

  lemma CopyExtends(message: seq<byte>, t: seq<byte>, got: seq<byte>)
    requires StandsIn(t, message) && got <= t && |got| < |t|
    ensures got + [message[|got|]] <= t
  {
    assert got + [message[|got|]] == t[..|got| + 1];
  }

  lemma TextStandsIn(message: seq<byte>)
    requires Terminated(message)
    ensures StandsIn(Text(message), message)
  {
  }

  lemma MoveCopies(s: State, p: nat, asked: seq<byte>)
    requires p < |s.procs| && s.procs[p].Getting? && Copies(s.procs[p], s.message, asked)
    ensures Copies(MoveGet(s, p).procs[p], MoveGet(s, p).message, asked)
    ensures MoveGet(s, p).gets == s.gets || MoveGet(s, p) == Finish(s, p, asked)
  {
    var Getting(got, tested) := s.procs[p];
    TextStandsIn(s.message);
    if tested {
      CopyExtends(s.message, asked, got);
    } else if s.message[|got|] == 0 {
      CopyEnds(s.message, asked, got);
    } else {
      assert got != asked;
    }
  }

  lemma OwnStepCopies(s: State, a: Action, asked: seq<byte>)
    requires a.p < |s.procs| && Copies(s.procs[a.p], s.message, asked) && !AskLetIn(s, a)
    ensures Copies(Step(s, a).procs[a.p], Step(s, a).message, asked)
    ensures Step(s, a).gets == s.gets || Step(s, a) == Finish(s, a.p, asked)
  {
    if a.Move? {
      match s.procs[a.p]
      case Getting(_, _) => MoveCopies(s, a.p, asked);
      case Looking => TextStandsIn(s.message);
      case _ =>
    }
  }

  lemma StepKeepsCopies(s: State, a: Action, asked: seq<byte>)
    requires Exclusive(s.procs, s.busy) && AllCopy(s, asked) && !AskLetIn(s, a) && !PlainStore(s, a, Step(s, a))
    ensures AllCopy(Step(s, a), asked)
  {
    var s' := Step(s, a);
    if a.p < |s.procs| {
      StepUpdates(s, a);
      OwnStepCopies(s, a, asked);
      forall p | 0 <= p < |s.procs| && p != a.p ensures Copies(s'.procs[p], s'.message, asked) {
        if s.procs[p].Looking? || s.procs[p].Getting? {
          OthersKeepMessage(s, a, p);
        }
      }
    }
  }

  lemma {:induction false} CopiesWhatWasAsked(n: nat, acts: seq<Action>)
    requires !Disturbed(n, acts)
    ensures AllCopy(Run(n, acts), MessageAsked(n, acts))
  {
    if acts != [] {
      var init, a := acts[..|acts| - 1], acts[|acts| - 1];
      InitKeepsInv(n);
      RunKeepsInv(Init(n), init);
      RunSplit(n, acts);
      if AskLetIn(Run(n, init), a) {
        AskStartsCopy(Run(n, init), a);
      } else {
        CopiesWhatWasAsked(n, init);
        StepKeepsCopies(Run(n, init), a, MessageAsked(n, init));
      }
    }
  }

  /** In every run, whatever was set or written before: a get-message during which no plain write
      stores a byte returns the message there was when it was let in. */
  lemma {:induction false} UndisturbedGetReturnsMessage(n: nat, acts: seq<Action>, p: nat)
    requires Run(n, acts + [Move(p)]).gets != Run(n, acts).gets && !Disturbed(n, acts)
    ensures var gets, gets' := Run(n, acts).gets, Run(n, acts + [Move(p)]).gets;
            |gets'| == |gets| + 1 && gets'[|gets|].text == MessageAsked(n, acts)
  {
    RunSnoc(n, acts, Move(p));
    CopiesWhatWasAsked(n, acts);
    OwnStepCopies(Run(n, acts), Move(p), MessageAsked(n, acts));
  }

  // ---------------------------------------------------------------- every call ends

  /** Accesses a call still makes at most. */
  function Left(q: Proc): int {
    match q
    case Idle => 0
    case Setting(s, next) => SetLength(|s|) - next + 1
    case Looking => 2 * BUF_LEN + 2
    case Getting(got, tested) => 2 * (BUF_LEN - |got|) + if tested then 0 else 1
    case Writing(src, next) => Min(|src|, BUF_LEN) - next + 1
  }

  /** How many of the actions are moves of process p. */
  function Moves(p: nat, acts: seq<Action>): nat {
    if acts == [] then 0 else (if acts[0] == Move(p) then 1 else 0) + Moves(p, acts[1..])
  }

  lemma MoveGetsCloser(s: State, p: nat)
    requires p < |s.procs| && !s.procs[p].Idle?
    ensures Left(Step(s, Move(p)).procs[p]) < Left(s.procs[p])
  {
    assert ProcOk(s.procs[p]);
  }

  lemma OnlyItMoves(s: State, a: Action, p: nat)
    requires p < |s.procs| && !s.procs[p].Idle? && a != Move(p)
    ensures Step(s, a).procs[p] == s.procs[p]
  {
    if a.p < |s.procs| && a.p != p {
      StepUpdates(s, a);
    }
  }

  ghost predicate EndsWithin(s: State, p: nat, acts: seq<Action>)
    requires p < |s.procs|
  {
    exists k :: 0 <= k <= |acts| && RunFrom(s, acts[..k]).procs[p].Idle?
  }

  lemma EndsLater(s: State, p: nat, acts: seq<Action>)
    requires p < |s.procs| && acts != []
    requires |Step(s, acts[0]).procs| == |s.procs|
    requires EndsWithin(Step(s, acts[0]), p, acts[1..])
    ensures EndsWithin(s, p, acts)
  {
    var k :| 0 <= k <= |acts[1..]| && RunFrom(Step(s, acts[0]), acts[1..][..k]).procs[p].Idle?;
    assert acts[..k + 1][1..] == acts[1..][..k];
    assert RunFrom(s, acts[..k + 1]).procs[p].Idle?;
  }

  lemma {:induction false} SoonEnds(s: State, p: nat, acts: seq<Action>)
    requires p < |s.procs| && Moves(p, acts) >= Left(s.procs[p])
    ensures EndsWithin(s, p, acts)
    decreases |acts|
  {
    if s.procs[p].Idle? {
      assert RunFrom(s, acts[..0]) == s;
    } else {
      assert ProcOk(s.procs[p]);
      if acts[0] == Move(p) {
        MoveGetsCloser(s, p);
      } else {
        OnlyItMoves(s, acts[0], p);
      }
      SoonEnds(Step(s, acts[0]), p, acts[1..]);
      EndsLater(s, p, acts);
    }
  }

  /** In every run, every call ends within 162 accesses of its own, whatever the other processes
      do between them; in particular the flag never stays up. */
  lemma EveryCallEnds(n: nat, acts: seq<Action>, p: nat, more: seq<Action>)
    requires p < n && Moves(p, more) >= 2 * BUF_LEN + 2
    ensures EndsWithin(Run(n, acts), p, more)
  {
    assert ProcOk(Run(n, acts).procs[p]);
    SoonEnds(Run(n, acts), p, more);
  }

  // ---------------------------------------------------------------- undisturbed calls

  function Iterate(f: State -> State, s: State, k: nat): State {
    if k == 0 then s else f(Iterate(f, s, k - 1))
  }

  lemma {:induction false} IterateOn(f: State -> State, s: State, k: nat)
    ensures Iterate(f, s, k + 1) == f(Iterate(f, s, k)) == Iterate(f, f(s), k)
  {
    if k > 0 {
      IterateOn(f, s, k - 1);
    }
  }

  /** If f takes c(0), c(1), ... one after the other, n steps lead from c(0) to c(n). */
  lemma {:induction false} IterateAlong(f: State -> State, c: nat -> State, n: nat)
    requires forall k: nat :: k < n ==> f(c(k)) == c(k + 1)
    ensures Iterate(f, c(0), n) == c(n)
  {
    if n > 0 {
      IterateAlong(f, c, n - 1);
    }
  }

  function Mover(p: nat): State -> State { (s: State) => Step(s, Move(p)) }

  /** Process p makes its next k accesses, nobody else any. */
  function Alone(s: State, p: nat, k: nat): State { Iterate(Mover(p), s, k) }

  lemma StoreExtends(src: seq<byte>, message: seq<byte>, k: nat)
    requires k < |src| && k < |message|
    ensures (src[..k] + message[k..])[k := src[k]] == src[..k + 1] + message[k + 1..]
  {
  }

  /** A set-message that has stored k bytes. */
  function Stored(s: State, p: nat, str: seq<byte>, k: nat): State
    requires p < |s.procs| && NulFree(str) && k <= SetLength(|str|)
  {
    s.(message := (str + [0])[..k] + s.message[k..], procs := s.procs[p := Setting(str, k)])
  }

  lemma StoreStep(s: State, p: nat, str: seq<byte>, k: nat)
    requires p < |s.procs| && NulFree(str) && k < SetLength(|str|)
    ensures Step(Stored(s, p, str, k), Move(p)) == Stored(s, p, str, k + 1)
  {
    StoreExtends(str + [0], s.message, k);
    assert s.procs[p := Setting(str, k)][p := Setting(str, k + 1)] == s.procs[p := Setting(str, k + 1)];
  }

  lemma SetStores(s: State, p: nat, str: seq<byte>)
    requires p < |s.procs| && s.procs[p] == Setting(str, 0)
    ensures Alone(s, p, SetLength(|str|)) == Stored(s, p, str, SetLength(|str|))
  {
    var n := SetLength(|str|);
    var c := (k: nat) => if k <= n then Stored(s, p, str, k) else s;
    assert c(0) == s;
    forall k: nat | k < n ensures Mover(p)(c(k)) == c(k + 1) {
      StoreStep(s, p, str, k);
    }
    IterateAlong(Mover(p), c, n);
  }

  /** A set-message nobody disturbs does to the message what CharMessage says. */
  lemma SetAlone(n: nat, acts: seq<Action>, p: nat, str: seq<byte>)
    requires p < n && Run(n, acts).procs[p].Idle? && !Run(n, acts).busy && NulFree(str)
    ensures var s := Run(n, acts);
            Alone(Run(n, acts + [Set(p, str)]), p, SetLength(|str|) + 1) ==
            s.(message := AfterSet(s.message, str), stained := s.stained && str == [],
               last := if str == [] then s.last else str[..Min(|str|, BUF_LEN)])
  {
    var s := Run(n, acts);
    RunSnoc(n, acts, Set(p, str));
    var s1 := Run(n, acts + [Set(p, str)]);
    SetStores(s1, p, str);
    IterateOn(Mover(p), s1, SetLength(|str|));
    assert s1.procs[p := Setting(str, SetLength(|str|))][p := Idle] == s.procs;
  }

  lemma {:induction false} WriteStores(s: State, p: nat, src: seq<byte>, k: nat)
    requires p < |s.procs| && s.procs[p] == Writing(src, 0) && k <= Min(|src|, BUF_LEN)
    ensures var t := Alone(s, p, k);
            t.message == src[..k] + s.message[k..] && t.procs == s.procs[p := Writing(src, k)]
  {
    if k > 0 {
      WriteStores(s, p, src, k - 1);
      WriteStep(Alone(s, p, k - 1), s.message, p, src, k - 1);
      assert s.procs[p := Writing(src, k - 1)][p := Writing(src, k)] == s.procs[p := Writing(src, k)];
    }
  }

  lemma WriteStep(s: State, message: seq<byte>, p: nat, src: seq<byte>, k: nat)
    requires p < |s.procs| && s.procs[p] == Writing(src, k) && k < Min(|src|, BUF_LEN)
    requires |message| == BUF_LEN + 1 && s.message == src[..k] + message[k..]
    ensures var t := Step(s, Move(p));
            t.message == src[..k + 1] + message[k + 1..] && t.procs == s.procs[p := Writing(src, k + 1)]
  {
    StoreExtends(src, message, k);
  }

  /** A plain write nobody disturbs overwrites the start of the message, flag or no flag. */
  lemma WriteAlone(n: nat, acts: seq<Action>, p: nat, src: seq<byte>)
    requires p < n && Run(n, acts).procs[p].Idle?
    ensures var s := Run(n, acts);
            var t := Alone(Run(n, acts + [Write(p, src)]), p, Min(|src|, BUF_LEN) + 1);
            t.message == src[..Min(|src|, BUF_LEN)] + s.message[Min(|src|, BUF_LEN)..] && t.procs == s.procs
  {
    var s := Run(n, acts);
    RunSnoc(n, acts, Write(p, src));
    var s1 := Run(n, acts + [Write(p, src)]);
    WriteStores(s1, p, src, Min(|src|, BUF_LEN));
    assert s1.procs[p := Writing(src, Min(|src|, BUF_LEN))][p := Idle] == s.procs;
  }
}
