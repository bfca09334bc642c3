/** The byte ring of practice/myblkdev under concurrency. The kernel timer runs
    `myblk_produce_data` under its spinlock, one caller at a time; the one user process
    runs `consume_ring` on the mapped pages with no lock at all. Each shared access is a
    step of its own, both byte copies go byte by byte, and the bytes of a memcpy may land
    in any order. A run is any sequence of actions; an action that is not enabled
    leaves the state alone. Memory is sequentially consistent.
 */
module BlkRingProtocol {
  import opened RingIndex
  import opened BlkRing
  import opened Word

  datatype RawCall = Call(src: seq<byte>, taken: nat, room: nat)

  /** One finished produce call: the bytes offered, how many of them were accepted, and how
      much room the ring really had when the call read the tail. */
  type Call = c: RawCall | c.taken <= |c.src| witness Call([], 0, 0)

  datatype Producer =
    | Idle
    | Locked(src: seq<byte>)
    | HeadRead(src: seq<byte>, head: nat)
    | TailRead(src: seq<byte>, head: nat, tail: nat, room: nat)
    | Copying(src: seq<byte>, head: nat, len: nat, room: nat, done: set<nat>)

  datatype Consumer =
    | Outside
    | Testing
    | Entered
    | HaveTail(tail: nat)
    | Emitting(tail: nat, head: nat, len: nat, next: nat, sent: nat)

  /** Shared memory (`data`, `head`, `tail`, `overflow`), the program points of both sides,
      and history: finished calls, emitted bytes, and for the current drain the loop passes
      made and the publishes that happened meanwhile. */
  datatype State = State(
    data: seq<byte>, head: nat, tail: nat, overflow: nat,
    prod: Producer, cons: Consumer,
    log: seq<Call>, out: seq<byte>, passes: nat, pubs: nat)

  datatype Action =
    | Produce(src: seq<byte>) | ReadHead | ReadTail | Size | CopyByte(k: nat) | Publish
    | BeginDrain | Test | LoadTail | LoadHead | EmitByte | Release

  ghost predicate InRange(s: State) {
    var n := |s.data|;
    && 0 < n && s.head < n && s.tail < n
    && (match s.prod
        case HeadRead(_, h) => h < n
        case TailRead(_, h, t, _) => h < n && t < n
        case Copying(src, h, len, _, _) => h < n && 0 < len < n && len <= |src|
        case _ => true)
    && (match s.cons
        case HaveTail(t) => t < n
        case Emitting(t, h, len, next, sent) => t < n && h < n && next < n && t + len <= n && sent <= len
        case _ => true)
  }

  ghost function Occ(s: State): nat
    requires InRange(s)
  {
    Occupied(|s.data|, s.tail, s.head)
  }

  ghost function Waiting(s: State): seq<byte>
    requires InRange(s)
  {
    Unread(s.data, s.tail, s.head)
  }

  /** Bytes that could be accepted right now. */
  ghost function Room(s: State): nat
    requires InRange(s)
  {
    |s.data| - 1 - |Waiting(s)|
  }

  function Init(size: nat): State {
    State(seq(size, _ => 0), 0, 0, 0, Idle, Outside, [], [], 0, 0)
  }

  /** The free-space decision on the two snapshots: truncate and count, or take all. */
  ghost function Sized(s: State): State
    requires InRange(s) && s.prod.TailRead?
  {
    var TailRead(src, head, tail, room) := s.prod;
    var free := FreeSpace(|s.data|, head, tail);
    var len := Min(|src|, free);
    var s' := if |src| > free then s.(overflow := U32(s.overflow + 1)) else s;
    if len > 0 then s'.(prod := Copying(src, head, len, room, {}))
    else s'.(prod := Idle, log := s.log + [Call(src, 0, room)])
  }

  /** Which span `consume_ring` writes out, and where it will leave the tail. */
  function Branch(size: nat, tail: nat, head: nat): Consumer
    requires tail < size
  {
    if tail < head then Emitting(tail, head, head - tail, head, 0)
    else Emitting(tail, head, size - tail, 0, 0)
  }

  /** `Cell` is the source's `(head + len) % size`, see RingIndex.StepIsCell. */
  ghost function Step(s: State, a: Action): State
    requires InRange(s)
  {
    match a
    case Produce(src) => if s.prod.Idle? then s.(prod := Locked(src)) else s
    case ReadHead => if s.prod.Locked? then s.(prod := HeadRead(s.prod.src, s.head)) else s
    case ReadTail => if s.prod.HeadRead? then s.(prod := TailRead(s.prod.src, s.prod.head, s.tail, Room(s))) else s
    case Size => if s.prod.TailRead? then Sized(s) else s
    case CopyByte(k) =>
      if s.prod.Copying? && k < s.prod.len then
        s.(data := s.data[Cell(|s.data|, s.prod.head, k) := s.prod.src[k]],
           prod := s.prod.(done := s.prod.done + {k}))
      else s
    case Publish =>
      if s.prod.Copying? && forall k :: 0 <= k < s.prod.len ==> k in s.prod.done then
        s.(head := Cell(|s.data|, s.prod.head, s.prod.len), prod := Idle,
           log := s.log + [Call(s.prod.src, s.prod.len, s.prod.room)], pubs := s.pubs + 1)
      else s
    case BeginDrain => if s.cons.Outside? then s.(cons := Testing, passes := 0, pubs := 0) else s
    case Test =>
      if s.cons.Testing? then s.(cons := if s.tail != s.head then Entered else Outside) else s
    case LoadTail => if s.cons.Entered? then s.(cons := HaveTail(s.tail)) else s
    case LoadHead => if s.cons.HaveTail? then s.(cons := Branch(|s.data|, s.cons.tail, s.head)) else s
    case EmitByte =>
      if s.cons.Emitting? && s.cons.sent < s.cons.len then
        s.(out := s.out + [s.data[s.cons.tail + s.cons.sent]], cons := s.cons.(sent := s.cons.sent + 1))
      else s
    case Release =>
      if s.cons.Emitting? && s.cons.sent == s.cons.len then
        s.(tail := s.cons.next, cons := Testing, passes := s.passes + 1)
      else s
  }

  // ---------------------------------------------------------------- specification

  /** The concatenation of every accepted prefix. */
  ghost function Accepted(log: seq<Call>): seq<byte> {
    if log == [] then []
    else Accepted(log[..|log| - 1]) + log[|log| - 1].src[..log[|log| - 1].taken]
  }

  ghost function Truncated(log: seq<Call>): nat {
    if log == [] then 0
    else Truncated(log[..|log| - 1]) + if log[|log| - 1].taken < |log[|log| - 1].src| then 1 else 0
  }

  ghost function Sent(c: Consumer): nat { if c.Emitting? then c.sent else 0 }

  // ---------------------------------------------------------------- invariant

  /** What the producer's locals still mean, however far the consumer has moved. */
  ghost predicate ProducerOk(s: State)
    requires InRange(s)
  {
    var n := |s.data|;
    match s.prod
    case HeadRead(_, h) => h == s.head
    case TailRead(_, h, t, room) => h == s.head && Occupied(n, t, h) >= Occ(s) && room == FreeSpace(n, h, t)
    case Copying(src, h, len, room, done) =>
      && h == s.head && len <= n - 1 - Occ(s) && len == Min(|src|, room)
      && forall k :: k in done ==> k < len && s.data[Cell(n, h, k)] == src[k]
    case _ => true
  }

  /** What the consumer's locals still mean, however far the producer has moved. */
  ghost predicate ConsumerOk(s: State)
    requires InRange(s)
  {
    var n := |s.data|;
    match s.cons
    case Entered => s.tail != s.head
    case HaveTail(t) => t == s.tail && s.tail != s.head
    case Emitting(t, h, len, next, sent) =>
      && t == s.tail && t != h && Occupied(n, t, h) <= Occ(s)
      && (t < h ==> len == h - t && next == h)
      && (t > h ==> len == n - t && next == 0)
    case _ => true
  }

  /** The last `sent` bytes put out are the first of the window, which is the rest of `all`. */
  ghost predicate Streams(all: seq<byte>, out: seq<byte>, window: seq<byte>, sent: nat) {
    && sent <= |out| && sent <= |window|
    && all == out[..|out| - sent] + window
    && out[|out| - sent..] == window[..sent]
  }

  ghost predicate StreamOk(s: State)
    requires InRange(s)
  {
    Streams(Accepted(s.log), s.out, Waiting(s), Sent(s.cons))
  }

  /** Calls cut short so far, counting the one being copied. */
  ghost function Cuts(s: State): nat {
    Truncated(s.log) + if s.prod.Copying? && s.prod.len < |s.prod.src| then 1 else 0
  }

  ghost predicate OverflowOk(s: State) { s.overflow == U32(Cuts(s)) }

  /** Loop passes already committed to, counting the one in progress. */
  ghost function Owed(s: State): nat {
    if s.cons.Emitting? then 1 + Passes(s.cons.next, s.head) else Passes(s.tail, s.head)
  }

  ghost predicate DrainOk(s: State) { s.passes + Owed(s) <= 2 * (s.pubs + 1) }

  ghost predicate TakenOk(s: State) {
    forall c :: c in s.log ==> c.taken == Min(|c.src|, c.room)
  }

  ghost predicate Inv(s: State) {
    InRange(s) && ProducerOk(s) && ConsumerOk(s) && StreamOk(s) && OverflowOk(s) && DrainOk(s) && TakenOk(s)
  }

  // ---------------------------------------------------------------- preservation

  lemma AcceptedSnoc(log: seq<Call>, c: Call)
    ensures Accepted(log + [c]) == Accepted(log) + c.src[..c.taken]
    ensures Truncated(log + [c]) == Truncated(log) + if c.taken < |c.src| then 1 else 0
  {
    assert (log + [c])[..|log|] == log;
  }

  lemma Splice(all: seq<byte>, out: seq<byte>, w: seq<byte>, n: nat)
    requires Streams(all, out, w, n)
    ensures all == out + w[n..]
    ensures Streams(all, out, w[n..], 0)
  {
    assert out == out[..|out| - n] + w[..n];
    assert out[..|out| - 0] == out && out[|out| - 0..] == w[n..][..0];
  }

  lemma StreamGrows(all: seq<byte>, out: seq<byte>, w: seq<byte>, n: nat, more: seq<byte>)
    requires Streams(all, out, w, n)
    ensures Streams(all + more, out, w + more, n)
  {
    assert out[..|out| - n] + w + more == out[..|out| - n] + (w + more);
    assert (w + more)[..n] == w[..n];
  }

  lemma StreamMoves(all: seq<byte>, out: seq<byte>, w: seq<byte>, n: nat)
    requires Streams(all, out, w, n) && n < |w|
    ensures Streams(all, out + [w[n]], w, n + 1)
  {
    assert (out + [w[n]])[..|out| - n] == out[..|out| - n];
    assert (out + [w[n]])[|out| - n..] == w[..n + 1];
  }

  lemma SizeCounts(s: State)
    requires InRange(s) && s.prod.TailRead?
    ensures var cut := |s.prod.src| > FreeSpace(|s.data|, s.prod.head, s.prod.tail);
            && Cuts(Sized(s)) == Cuts(s) + (if cut then 1 else 0)
            && Sized(s).overflow == if cut then U32(s.overflow + 1) else s.overflow
  {
    AcceptedSnoc(s.log, Call(s.prod.src, 0, s.prod.room));
  }

  lemma SizeKeepsOverflow(s: State)
    requires InRange(s) && OverflowOk(s) && s.prod.TailRead?
    ensures OverflowOk(Sized(s))
  {
    SizeCounts(s);
    U32Step(Cuts(s));
  }

  /** Stream facts depend only on the shared cells, the emitted bytes and the accepted bytes. */
  lemma StreamFrame(s: State, s': State)
    requires InRange(s) && InRange(s') && StreamOk(s)
    requires s'.data == s.data && s'.head == s.head && s'.tail == s.tail && s'.out == s.out
    requires Sent(s'.cons) == Sent(s.cons) && Accepted(s'.log) == Accepted(s.log)
    ensures StreamOk(s')
  {
  }

  lemma SizeLeavesShared(s: State)
    requires InRange(s) && s.prod.TailRead?
    ensures var s' := Sized(s);
            s'.data == s.data && s'.head == s.head && s'.tail == s.tail && s'.out == s.out && s'.cons == s.cons
  {
  }

  lemma SizeKeepsSnapshot(s: State)
    requires InRange(s) && ProducerOk(s) && s.prod.TailRead?
    ensures InRange(Sized(s)) && ProducerOk(Sized(s))
  {
  }

  lemma SizeKeepsLog(s: State)
    requires InRange(s) && ProducerOk(s) && TakenOk(s) && s.prod.TailRead?
    ensures TakenOk(Sized(s)) && Accepted(Sized(s).log) == Accepted(s.log)
  {
    AcceptedSnoc(s.log, Call(s.prod.src, 0, s.prod.room));
  }

  lemma SizeKeepsStream(s: State)
    requires InRange(s) && ProducerOk(s) && StreamOk(s) && TakenOk(s) && s.prod.TailRead?
    ensures InRange(Sized(s)) && StreamOk(Sized(s))
  {
    SizeKeepsSnapshot(s);
    SizeKeepsLog(s);
    SizeLeavesShared(s);
    StreamFrame(s, Sized(s));
  }

  lemma SizeKeepsConsumer(s: State)
    requires InRange(s) && ConsumerOk(s) && DrainOk(s) && s.prod.TailRead? && InRange(Sized(s))
    ensures ConsumerOk(Sized(s)) && DrainOk(Sized(s))
  {
  }

  lemma SizeKeepsInv(s: State)
    requires Inv(s) && s.prod.TailRead?
    ensures Inv(Sized(s))
  {
    SizeKeepsSnapshot(s);
    SizeKeepsConsumer(s);
    SizeKeepsOverflow(s);
    SizeKeepsLog(s);
    SizeKeepsStream(s);
  }

  lemma CopyLeavesUnread(s: State, k: nat)
    requires InRange(s) && ProducerOk(s) && s.prod.Copying? && k < s.prod.len
    ensures Waiting(Step(s, CopyByte(k))) == Waiting(s)
  {
    var n, s' := |s.data|, Step(s, CopyByte(k));
    forall i | 0 <= i < Occ(s)
      ensures s'.data[Cell(n, s.tail, i)] == s.data[Cell(n, s.tail, i)]
    {
      WindowApart(n, s.tail, Occ(s), i, k);
    }
  }

  lemma CopyKeepsProducer(s: State, k: nat)
    requires InRange(s) && ProducerOk(s) && s.prod.Copying? && k < s.prod.len
    ensures InRange(Step(s, CopyByte(k))) && ProducerOk(Step(s, CopyByte(k)))
  {
  }

  lemma CopyKeepsInv(s: State, k: nat)
    requires Inv(s) && s.prod.Copying? && k < s.prod.len
    ensures Inv(Step(s, CopyByte(k)))
    ensures Waiting(Step(s, CopyByte(k))) == Waiting(s)
  {
    CopyLeavesUnread(s, k);
    CopyKeepsProducer(s, k);
  }

  lemma PublishGrows(s: State)
    requires InRange(s) && ProducerOk(s) && s.prod.Copying?
    requires forall k :: 0 <= k < s.prod.len ==> k in s.prod.done
    ensures InRange(Step(s, Publish))
    ensures Occ(Step(s, Publish)) == Occ(s) + s.prod.len
    ensures Waiting(Step(s, Publish)) == Waiting(s) + s.prod.src[..s.prod.len]
  {
    var n := |s.data|;
    var Copying(src, h, len, room, done) := s.prod;
    WindowAppend(s.data, s.data, s.tail, Occ(s), src[..len]);
    assert Occupied(n, s.tail, Cell(n, h, len)) == Occ(s) + len;
  }

  lemma PublishKeepsConsumer(s: State)
    requires InRange(s) && ProducerOk(s) && ConsumerOk(s) && s.prod.Copying?
    requires forall k :: 0 <= k < s.prod.len ==> k in s.prod.done
    ensures InRange(Step(s, Publish)) && ConsumerOk(Step(s, Publish))
  {
    PublishGrows(s);
  }

  lemma PublishKeepsCuts(s: State)
    requires InRange(s) && s.prod.Copying?
    ensures Cuts(Step(s, Publish)) == Cuts(s)
  {
    AcceptedSnoc(s.log, Call(s.prod.src, s.prod.len, s.prod.room));
  }

  lemma PublishKeepsInv(s: State)
    requires Inv(s) && s.prod.Copying?
    requires forall k :: 0 <= k < s.prod.len ==> k in s.prod.done
    ensures Inv(Step(s, Publish))
    ensures Waiting(Step(s, Publish)) == Waiting(s) + s.prod.src[..s.prod.len]
  {
    PublishGrows(s);
    PublishKeepsConsumer(s);
    PublishKeepsCuts(s);
    AcceptedSnoc(s.log, Call(s.prod.src, s.prod.len, s.prod.room));
    StreamGrows(Accepted(s.log), s.out, Waiting(s), Sent(s.cons), s.prod.src[..s.prod.len]);
  }

  lemma EmitReadsNext(s: State)
    requires InRange(s) && ConsumerOk(s) && s.cons.Emitting? && s.cons.sent < s.cons.len
    ensures s.cons.sent < Occ(s)
    ensures Step(s, EmitByte).out == s.out + [Waiting(s)[s.cons.sent]]
  {
    assert Cell(|s.data|, s.tail, s.cons.sent) == s.tail + s.cons.sent;
  }

  lemma EmitKeepsStream(s: State)
    requires InRange(s) && ConsumerOk(s) && StreamOk(s) && s.cons.Emitting? && s.cons.sent < s.cons.len
    ensures StreamOk(Step(s, EmitByte))
  {
    EmitReadsNext(s);
    StreamMoves(Accepted(s.log), s.out, Waiting(s), s.cons.sent);
  }

  lemma EmitKeepsInv(s: State)
    requires Inv(s) && s.cons.Emitting? && s.cons.sent < s.cons.len
    ensures Inv(Step(s, EmitByte))
    ensures Step(s, EmitByte).out == s.out + [Waiting(s)[s.cons.sent]]
  {
    EmitReadsNext(s);
    EmitKeepsStream(s);
  }

  lemma ReleaseShrinks(s: State)
    requires InRange(s) && ConsumerOk(s) && s.cons.Emitting? && s.cons.sent == s.cons.len
    ensures Waiting(Step(s, Release)) == Waiting(s)[s.cons.len..]
    ensures Occ(Step(s, Release)) == Occ(s) - s.cons.len
  {
    var n, len := |s.data|, s.cons.len;
    assert len <= Occ(s) && Cell(n, s.tail, len) == s.cons.next;
    WindowDrop(s.data, s.tail, Occ(s), len);
    assert Occupied(n, s.cons.next, s.head) == Occ(s) - len;
  }

  lemma ReleaseKeepsInv(s: State)
    requires Inv(s) && s.cons.Emitting? && s.cons.sent == s.cons.len
    ensures Inv(Step(s, Release))
  {
    ReleaseShrinks(s);
    Splice(Accepted(s.log), s.out, Waiting(s), s.cons.sent);
  }

  /** Steps that only load shared values into locals or test them. */
  predicate Loads(a: Action) {
    a.Produce? || a.ReadHead? || a.ReadTail? || a.BeginDrain? || a.Test? || a.LoadTail? || a.LoadHead?
  }

  lemma LoadKeepsLocals(s: State, a: Action)
    requires InRange(s) && ProducerOk(s) && ConsumerOk(s) && Loads(a)
    ensures InRange(Step(s, a)) && ProducerOk(Step(s, a)) && ConsumerOk(Step(s, a))
  {
  }

  lemma LoadKeepsDrain(s: State, a: Action)
    requires InRange(s) && ConsumerOk(s) && DrainOk(s) && Loads(a)
    ensures DrainOk(Step(s, a))
  {
  }

  lemma LoadLeavesShared(s: State, a: Action)
    requires InRange(s) && (Loads(a) || a.Size?)
    ensures var s' := Step(s, a);
            && s'.data == s.data && s'.head == s.head && s'.tail == s.tail && s'.out == s.out
            && Sent(s'.cons) == Sent(s.cons)
            && (Loads(a) ==> s'.log == s.log && Cuts(s') == Cuts(s) && s'.overflow == s.overflow)
  {
  }

  lemma LoadKeepsInv(s: State, a: Action)
    requires Inv(s) && Loads(a)
    ensures Inv(Step(s, a))
  {
    LoadKeepsLocals(s, a);
    LoadKeepsDrain(s, a);
    LoadLeavesShared(s, a);
    StreamFrame(s, Step(s, a));
  }

  lemma StepKeepsInv(s: State, a: Action)
    requires Inv(s)
    ensures Inv(Step(s, a)) && |Step(s, a).data| == |s.data|
  {
    if Loads(a) {
      LoadKeepsInv(s, a);
    } else if Step(s, a) != s {
      match a
      case Size => SizeKeepsInv(s);
      case CopyByte(k) => CopyKeepsInv(s, k);
      case Publish => PublishKeepsInv(s);
      case EmitByte => EmitKeepsInv(s);
      case Release => ReleaseKeepsInv(s);
    }
  }

  // ---------------------------------------------------------------- runs

  lemma StepKeepsRange(s: State, a: Action)
    requires InRange(s)
    ensures InRange(Step(s, a)) && |Step(s, a).data| == |s.data|
  {
  }

  /** The state after any interleaving of micro-steps on a ring of any size. */
  ghost function Run(size: nat, acts: seq<Action>): (s: State)
    requires 0 < size < SIZE_LIMIT
    ensures InRange(s) && |s.data| == size
  {
    if acts == [] then
      Init(size)
    else
      var s := Run(size, acts[..|acts| - 1]);
      StepKeepsRange(s, acts[|acts| - 1]);
      Step(s, acts[|acts| - 1])
  }

  lemma InitKeepsInv(size: nat)
    requires 0 < size < SIZE_LIMIT
    ensures Inv(Init(size))
  {
  }

  lemma {:induction false} RunKeepsInv(size: nat, acts: seq<Action>)
    requires 0 < size < SIZE_LIMIT
    ensures Inv(Run(size, acts))
  {
    if acts == [] {
      InitKeepsInv(size);
    } else {
      RunKeepsInv(size, acts[..|acts| - 1]);
      StepKeepsInv(Run(size, acts[..|acts| - 1]), acts[|acts| - 1]);
    }
  }

  lemma {:induction false} RunSnoc(size: nat, acts: seq<Action>, a: Action)
    requires 0 < size < SIZE_LIMIT
    ensures Run(size, acts + [a]) == Step(Run(size, acts), a)
  {
    assert (acts + [a])[..|acts|] == acts;
  }

  /** Published bytes the consumer has not emitted yet. */
  ghost function Queue(s: State): seq<byte>
    requires InRange(s)
  {
    if Sent(s.cons) <= Occ(s) then Waiting(s)[Sent(s.cons)..] else []
  }

  /** No loss, duplication or reordering: what was emitted, followed by what still waits, is
      exactly what was accepted; and the ring never holds more than size - 1 bytes. */
  lemma {:induction false} OutputIsPrefix(size: nat, acts: seq<Action>)
    requires 0 < size < SIZE_LIMIT
    ensures var s := Run(size, acts);
            && Accepted(s.log) == s.out + Queue(s)
            && s.out <= Accepted(s.log)
            && |Waiting(s)| <= size - 1
  {
    RunKeepsInv(size, acts);
    var s := Run(size, acts);
    Splice(Accepted(s.log), s.out, Waiting(s), Sent(s.cons));
  }

  /** One step of an atomic FIFO, taken by action `a`. */
  ghost predicate FifoStep(s: State, a: Action, s': State)
    requires InRange(s) && InRange(s')
  {
    if a.Publish? && s' != s then
      s.prod.Copying? && s'.out == s.out && Queue(s') == Queue(s) + s.prod.src[..s.prod.len]
    else if a.EmitByte? && s' != s then
      Queue(s) != [] && s'.out == s.out + [Queue(s)[0]] && Queue(s') == Queue(s)[1..]
    else
      s'.out == s.out && Queue(s') == Queue(s)
  }

  /** A step that leaves the shared fields and the output alone leaves the FIFO alone. */
  lemma FifoUntouched(s: State, a: Action, s': State)
    requires InRange(s) && StreamOk(s) && InRange(s') && StreamOk(s') && !a.Publish? && !a.EmitByte?
    requires s'.data == s.data && s'.head == s.head && s'.tail == s.tail && s'.out == s.out
    requires Sent(s'.cons) == Sent(s.cons)
    ensures FifoStep(s, a, s')
  {
    assert Waiting(s') == Waiting(s);
  }

  lemma LoadIsFifoStep(s: State, a: Action)
    requires InRange(s) && StreamOk(s) && InRange(Step(s, a)) && StreamOk(Step(s, a))
    requires Loads(a) || a.Size?
    ensures FifoStep(s, a, Step(s, a))
  {
    LoadLeavesShared(s, a);
    FifoUntouched(s, a, Step(s, a));
  }

  lemma PublishIsFifoStep(s: State)
    requires Inv(s) && Inv(Step(s, Publish)) && Step(s, Publish) != s
    ensures FifoStep(s, Publish, Step(s, Publish))
  {
    PublishGrows(s);
  }

  lemma FrontLeaves(w: seq<byte>, n: nat)
    requires n < |w|
    ensures w[n..] != [] && w[n..][0] == w[n] && w[n..][1..] == w[n + 1..]
  {
  }

  lemma EmitIsFifoStep(s: State)
    requires InRange(s) && ConsumerOk(s) && StreamOk(s) && Step(s, EmitByte) != s
    requires InRange(Step(s, EmitByte)) && StreamOk(Step(s, EmitByte))
    ensures FifoStep(s, EmitByte, Step(s, EmitByte))
  {
    EmitReadsNext(s);
    assert Waiting(Step(s, EmitByte)) == Waiting(s);
    FrontLeaves(Waiting(s), s.cons.sent);
  }

  lemma AnyIsFifoStep(s: State, a: Action)
    requires Inv(s) && Inv(Step(s, a))
    ensures FifoStep(s, a, Step(s, a))
  {
    if Loads(a) || a.Size? {
      LoadIsFifoStep(s, a);
    } else if Step(s, a) != s {
      match a
      case CopyByte(k) => CopyLeavesUnread(s, k);
      case Publish => PublishIsFifoStep(s);
      case Release => ReleaseShrinks(s);
      case EmitByte => EmitIsFifoStep(s);
    }
  }

  /** Every micro-step is a step of an atomic FIFO or leaves it alone: only `Publish` appends,
      and it appends the accepted prefix at once; only `EmitByte` delivers, from the front. */
  lemma {:induction false} StepRefinesFifo(size: nat, acts: seq<Action>, a: Action)
    requires 0 < size < SIZE_LIMIT
    ensures FifoStep(Run(size, acts), a, Run(size, acts + [a]))
  {
    RunKeepsInv(size, acts);
    RunSnoc(size, acts, a);
    StepKeepsInv(Run(size, acts), a);
    AnyIsFifoStep(Run(size, acts), a);
  }

  predicate ByProducer(a: Action) {
    a.Produce? || a.ReadHead? || a.ReadTail? || a.Size? || a.CopyByte? || a.Publish?
  }

  /** A stale tail only makes the producer see less room than there is; and the consumer's
      `else` branch, decided on a possibly stale head, only ever has tail strictly beyond head. */
  lemma {:induction false} SnapshotsAreConservative(size: nat, acts: seq<Action>)
    requires 0 < size < SIZE_LIMIT
    ensures var s := Run(size, acts);
            && (s.prod.TailRead? ==> FreeSpace(size, s.prod.head, s.prod.tail) <= FreeSpace(size, s.head, s.tail))
            && (s.prod.Copying? ==> s.prod.len <= FreeSpace(size, s.head, s.tail))
            && (s.cons.Emitting? && !(s.cons.tail < s.cons.head) ==> s.cons.tail > s.cons.head)
  {
    RunKeepsInv(size, acts);
  }

  /** The unread cells of s keep their bytes and stay unread in s'. */
  ghost predicate Spares(s: State, s': State)
    requires InRange(s)
  {
    && s'.tail == s.tail && |s'.data| == |s.data|
    && (forall i :: 0 <= i < Occ(s) ==>
          s'.data[Cell(|s.data|, s.tail, i)] == s.data[Cell(|s.data|, s.tail, i)])
    && (s.tail != s.head ==> s'.tail != s'.head)
  }

  lemma CopySpares(s: State, k: nat)
    requires Inv(s) && s.prod.Copying? && k < s.prod.len
    ensures Spares(s, Step(s, CopyByte(k)))
  {
    forall i | 0 <= i < Occ(s) ensures Cell(|s.data|, s.tail, i) != Cell(|s.data|, s.prod.head, k) {
      WindowApart(|s.data|, s.tail, Occ(s), i, k);
    }
  }

  /** No producer step, at any point of any run, touches an unread cell or empties the ring. */
  lemma {:induction false} ProducerSparesUnread(size: nat, acts: seq<Action>, a: Action)
    requires 0 < size < SIZE_LIMIT && ByProducer(a)
    ensures Spares(Run(size, acts), Run(size, acts + [a]))
  {
    RunKeepsInv(size, acts);
    var s := Run(size, acts);
    RunSnoc(size, acts, a);
    if a.CopyByte? && Step(s, a) != s {
      CopySpares(s, a.k);
    }
  }

  lemma PublishRaises(s: State)
    requires InRange(s) && ProducerOk(s) && Step(s, Publish) != s
    ensures Step(s, Publish).head != Step(s, Publish).tail
  {
    PublishGrows(s);
  }

  lemma OthersDoNotRaise(s: State, a: Action)
    requires InRange(s) && ConsumerOk(s) && !a.Publish? && s.head == s.tail
    ensures Step(s, a).head == Step(s, a).tail
  {
  }

  lemma RaisedByPublish(s: State, a: Action)
    requires Inv(s)
    ensures s.head == s.tail && Step(s, a).head != Step(s, a).tail ==> a.Publish?
    ensures a.Publish? && Step(s, a) != s ==> Step(s, a).head != Step(s, a).tail
  {
    if a.Publish? && Step(s, a) != s {
      PublishRaises(s);
    } else if s.head == s.tail && !a.Publish? {
      OthersDoNotRaise(s, a);
    }
  }

  /** The poll condition `head != tail` is raised by `Publish` and by nothing else, and every
      publish raises it: the producer's wake-up is due exactly then. */
  lemma {:induction false} OnlyPublishRaises(size: nat, acts: seq<Action>, a: Action)
    requires 0 < size < SIZE_LIMIT
    ensures var s, s' := Run(size, acts), Run(size, acts + [a]);
            && (s.head == s.tail && s'.head != s'.tail ==> a.Publish?)
            && (a.Publish? && s' != s ==> s'.head != s'.tail)
  {
    RunKeepsInv(size, acts);
    RunSnoc(size, acts, a);
    RaisedByPublish(Run(size, acts), a);
  }

  /** The drain loop makes at most two passes per head value it can see. */
  lemma {:induction false} DrainIsBounded(size: nat, acts: seq<Action>)
    requires 0 < size < SIZE_LIMIT
    ensures Run(size, acts).passes <= 2 * (Run(size, acts).pubs + 1)
  {
    RunKeepsInv(size, acts);
  }

  lemma EmptyRingIsDrained(s: State)
    requires InRange(s) && StreamOk(s) && s.cons.Testing?
    ensures Step(s, Test).cons.Outside? ==> s.out == Accepted(s.log)
  {
    if s.tail == s.head {
      assert |Waiting(s)| == 0;
      Splice(Accepted(s.log), s.out, Waiting(s), 0);
    }
  }

  /** The drain is left only when everything accepted so far has been emitted. */
  lemma {:induction false} DrainLeavesNothing(size: nat, acts: seq<Action>)
    requires 0 < size < SIZE_LIMIT
    ensures var s, s' := Run(size, acts), Run(size, acts + [Test]);
            s.cons.Testing? && s'.cons.Outside? ==> s.out == Accepted(s.log)
  {
    RunKeepsInv(size, acts);
    var s := Run(size, acts);
    RunSnoc(size, acts, Test);
    if s.cons.Testing? {
      EmptyRingIsDrained(s);
    }
  }

  /** Every finished call accepted exactly as many bytes as it offered, or as the ring had room
      for at the moment it read the tail, whichever is less. */
  lemma {:induction false} CallsTakeWhatFits(size: nat, acts: seq<Action>)
    requires 0 < size < SIZE_LIMIT
    ensures forall c :: c in Run(size, acts).log ==> c.taken == Min(|c.src|, c.room)
  {
    RunKeepsInv(size, acts);
  }

  /** The overflow counter counts exactly the calls that were cut short, modulo 2^32. */
  lemma {:induction false} OverflowCountsTruncations(size: nat, acts: seq<Action>)
    requires 0 < size < SIZE_LIMIT
    requires Run(size, acts).prod.Idle?
    ensures Run(size, acts).overflow == U32(Truncated(Run(size, acts).log))
  {
    RunKeepsInv(size, acts);
  }
}
