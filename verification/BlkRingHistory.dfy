/** What the history kept by BlkRingProtocol means, said from the actions of a run alone: the
    calls made and their arguments, the room each found, and the passes of the drain loop.
 */
module BlkRingHistory {
  import opened BlkRingProtocol
  import opened BlkRing
  import opened Word

  /** The arguments of the produce calls made, in order: a call is made when nobody else is in
      one, since the callers serialise on the spinlock. */
  ghost function Offered(size: nat, acts: seq<Action>): seq<seq<byte>>
    requires 0 < size < SIZE_LIMIT
  {
    if acts == [] then []
    else
      var init, a := acts[..|acts| - 1], acts[|acts| - 1];
      Offered(size, init) + if a.Produce? && Run(size, init).prod.Idle? then [a.src] else []
  }

  /** The bytes that could have been accepted, at each moment a call read the tail. */
  ghost function Rooms(size: nat, acts: seq<Action>): seq<nat>
    requires 0 < size < SIZE_LIMIT
  {
    if acts == [] then []
    else
      var init, a := acts[..|acts| - 1], acts[|acts| - 1];
      Rooms(size, init) + if a.ReadTail? && Run(size, init).prod.HeadRead? then [Room(Run(size, init))] else []
  }

  /** Loop bodies completed since the drain was entered. */
  ghost function PassesMade(size: nat, acts: seq<Action>): nat
    requires 0 < size < SIZE_LIMIT
  {
    if acts == [] then 0
    else
      var init, a := acts[..|acts| - 1], acts[|acts| - 1];
      var s := Run(size, init);
      if a.BeginDrain? && s.cons.Outside? then 0
      else PassesMade(size, init) + if a.Release? && s.cons.Emitting? && s.cons.sent == s.cons.len then 1 else 0
  }

  /** Head updates since the drain was entered. */
  ghost function HeadsPublished(size: nat, acts: seq<Action>): nat
    requires 0 < size < SIZE_LIMIT
  {
    if acts == [] then 0
    else
      var init, a := acts[..|acts| - 1], acts[|acts| - 1];
      if a.BeginDrain? && Run(size, init).cons.Outside? then 0
      else HeadsPublished(size, init) + if a.Publish? && Run(size, acts).head != Run(size, init).head then 1 else 0
  }

  function Sources(log: seq<Call>): (r: seq<seq<byte>>)
    ensures |r| == |log| && forall i :: 0 <= i < |log| ==> r[i] == log[i].src
  {
    seq(|log|, i requires 0 <= i < |log| => log[i].src)
  }

  function RoomsOf(log: seq<Call>): (r: seq<nat>)
    ensures |r| == |log| && forall i :: 0 <= i < |log| ==> r[i] == log[i].room
  {
    seq(|log|, i requires 0 <= i < |log| => log[i].room)
  }

  /** The argument of the call in progress. */
  function InHand(p: Producer): seq<seq<byte>> { if p.Idle? then [] else [p.src] }

  function RoomInHand(p: Producer): seq<nat> { if p.TailRead? || p.Copying? then [p.room] else [] }

  lemma StepKeepsSources(s: State, a: Action)
    requires InRange(s)
    ensures Sources(Step(s, a).log) + InHand(Step(s, a).prod) ==
            Sources(s.log) + InHand(s.prod) + if a.Produce? && s.prod.Idle? then [a.src] else []
  {
  }

  lemma StepKeepsRooms(s: State, a: Action)
    requires InRange(s)
    ensures RoomsOf(Step(s, a).log) + RoomInHand(Step(s, a).prod) ==
            RoomsOf(s.log) + RoomInHand(s.prod) + if a.ReadTail? && s.prod.HeadRead? then [Room(s)] else []
  {
  }

  lemma StepKeepsPasses(s: State, a: Action)
    requires InRange(s)
    ensures Step(s, a).passes ==
            if a.BeginDrain? && s.cons.Outside? then 0
            else s.passes + if a.Release? && s.cons.Emitting? && s.cons.sent == s.cons.len then 1 else 0
  {
  }

  /** Every call is logged with the argument it was made with, and none is forgotten: finished
      calls, then the one in progress, are the calls made. */
  lemma {:induction false} NoCallIsAltered(size: nat, acts: seq<Action>)
    requires 0 < size < SIZE_LIMIT
    ensures Sources(Run(size, acts).log) + InHand(Run(size, acts).prod) == Offered(size, acts)
  {
    if acts != [] {
      NoCallIsAltered(size, acts[..|acts| - 1]);
      StepKeepsSources(Run(size, acts[..|acts| - 1]), acts[|acts| - 1]);
    }
  }

  /** The room logged with each call is the room there was when it read the tail. */
  lemma {:induction false} RoomIsAsRead(size: nat, acts: seq<Action>)
    requires 0 < size < SIZE_LIMIT
    ensures RoomsOf(Run(size, acts).log) + RoomInHand(Run(size, acts).prod) == Rooms(size, acts)
  {
    if acts != [] {
      RoomIsAsRead(size, acts[..|acts| - 1]);
      StepKeepsRooms(Run(size, acts[..|acts| - 1]), acts[|acts| - 1]);
    }
  }

  lemma {:induction false} PassesAreCounted(size: nat, acts: seq<Action>)
    requires 0 < size < SIZE_LIMIT
    ensures Run(size, acts).passes == PassesMade(size, acts)
  {
    if acts != [] {
      PassesAreCounted(size, acts[..|acts| - 1]);
      StepKeepsPasses(Run(size, acts[..|acts| - 1]), acts[|acts| - 1]);
    }
  }

  lemma PublishMovesHead(s: State)
    requires InRange(s) && ProducerOk(s) && Step(s, Publish) != s
    ensures Step(s, Publish).head != s.head
  {
  }

  lemma StepKeepsPublished(s: State, a: Action)
    requires InRange(s) && ProducerOk(s)
    ensures Step(s, a).pubs ==
            if a.BeginDrain? && s.cons.Outside? then 0
            else s.pubs + if a.Publish? && Step(s, a).head != s.head then 1 else 0
  {
    if a.Publish? && Step(s, a) != s {
      PublishMovesHead(s);
    }
  }

  lemma {:induction false} PublishedAreCounted(size: nat, acts: seq<Action>)
    requires 0 < size < SIZE_LIMIT
    ensures Run(size, acts).pubs == HeadsPublished(size, acts)
  {
    if acts != [] {
      PublishedAreCounted(size, acts[..|acts| - 1]);
      RunKeepsInv(size, acts[..|acts| - 1]);
      StepKeepsPublished(Run(size, acts[..|acts| - 1]), acts[|acts| - 1]);
    }
  }

  /** So a drain makes at most two passes per head value it could see, both counted from the
      actions since it began. */
  lemma DrainIsBoundedByHeads(size: nat, acts: seq<Action>)
    requires 0 < size < SIZE_LIMIT
    ensures PassesMade(size, acts) <= 2 * (HeadsPublished(size, acts) + 1)
  {
    PassesAreCounted(size, acts);
    PublishedAreCounted(size, acts);
    DrainIsBounded(size, acts);
  }

  /** What calls with these arguments put into the stream, each finding this much room. */
  function Taken(offered: seq<seq<byte>>, rooms: seq<nat>): seq<byte>
    requires |offered| == |rooms|
  {
    if offered == [] then []
    else
      var n := |offered| - 1;
      Taken(offered[..n], rooms[..n]) + offered[n][..Min(|offered[n]|, rooms[n])]
  }

  /** How many of them were cut short. */
  function Cut(offered: seq<seq<byte>>, rooms: seq<nat>): nat
    requires |offered| == |rooms|
  {
    if offered == [] then 0
    else
      var n := |offered| - 1;
      Cut(offered[..n], rooms[..n]) + if |offered[n]| > rooms[n] then 1 else 0
  }

  lemma {:induction false} LogIsTaken(log: seq<Call>)
    requires forall c :: c in log ==> c.taken == Min(|c.src|, c.room)
    ensures Accepted(log) == Taken(Sources(log), RoomsOf(log))
    ensures Truncated(log) == Cut(Sources(log), RoomsOf(log))
  {
    if log != [] {
      var n := |log| - 1;
      LogIsTaken(log[..n]);
      assert Sources(log)[..n] == Sources(log[..n]) && RoomsOf(log)[..n] == RoomsOf(log[..n]);
    }
  }

  /** The whole behaviour, from the actions of a run: after k finished calls, what was emitted
      and what still waits is made of the calls' own arguments, each cut to the room there was
      when it read the tail; and the overflow field counts, modulo 2^32, those that were cut. */
  lemma {:induction false} StreamOfArguments(size: nat, acts: seq<Action>)
    requires 0 < size < SIZE_LIMIT
    ensures var s := Run(size, acts);
            var k := |s.log|;
            var offered, rooms := Offered(size, acts), Rooms(size, acts);
            && k <= |offered| <= k + 1 && k <= |rooms| <= k + 1
            && s.out + Queue(s) == Taken(offered[..k], rooms[..k])
            && (s.prod.Idle? ==> |offered| == k && s.overflow == U32(Cut(offered, rooms[..k])))
  {
    var s := Run(size, acts);
    var k := |s.log|;
    NoCallIsAltered(size, acts);
    RoomIsAsRead(size, acts);
    CallsTakeWhatFits(size, acts);
    LogIsTaken(s.log);
    OutputIsPrefix(size, acts);
    assert Offered(size, acts)[..k] == Sources(s.log) && Rooms(size, acts)[..k] == RoomsOf(s.log);
    if s.prod.Idle? {
      OverflowCountsTruncations(size, acts);
      assert Offered(size, acts)[..k] == Offered(size, acts);
    }
  }
}
