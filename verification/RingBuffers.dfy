/** The two drop-oldest rings: `RingBuf` is practice/myfakebell/ringbuf.h (capacity 64 there),
    `SensorRing` is the ring of practice/mysensor/mysensor.c (capacity 100 there, values and
    timestamps in two arrays). Both operate under their own lock, so each call is atomic.
 */
module RingBuffers {
  import opened RingIndex
  import opened Word
  import opened DropRing
  import opened Wrappers

  /** One slot written at `head`, the oldest one given up if the ring was full. */
  lemma PushWindow<T>(data: seq<T>, data': seq<T>, tail: nat, size: nat, x: T)
    requires tail < |data| && size <= |data| && |data'| == |data|
    requires data' == data[Cell(|data|, tail, size) := x]
    ensures var tail' := if size < |data| then tail else Cell(|data|, tail, 1);
            var size' := if size < |data| then size + 1 else size;
            && Window(data', tail', size') == Pushed(Window(data, tail, size), x, |data|)
            && Cell(|data|, tail', size') == Cell(|data|, Cell(|data|, tail, size), 1)
  {
    var n := |data|;
    var keep := if size < n then 0 else 1;
    var tail', k := Cell(n, tail, keep), size - keep;
    WindowDrop(data, tail, size, keep);
    assert Cell(n, tail', k) == Cell(n, tail, size);
    forall i | 0 <= i < k
      ensures data'[Cell(n, tail', i)] == data[Cell(n, tail', i)]
    {
      WindowApart(n, tail', k, i, 0);
    }
    WindowAppend(data, data', tail', k, [x]);
  }

  function Paired<V, S>(vs: seq<V>, ss: seq<S>): (d: seq<(V, S)>)
    requires |vs| == |ss|
    ensures |d| == |vs|
    ensures forall i :: 0 <= i < |d| ==> d[i] == (vs[i], ss[i])
  {
    seq(|vs|, i requires 0 <= i < |vs| => (vs[i], ss[i]))
  }

  lemma PairedUpdate<V, S>(vs: seq<V>, ss: seq<S>, i: nat, v: V, t: S)
    requires i < |vs| == |ss|
    ensures Paired(vs[i := v], ss[i := t]) == Paired(vs, ss)[i := (v, t)]
  {
  }

  class RingBuf<T> {
    const data: array<T>
    var head: nat
    var tail: nat
    var size: nat
    var dropcount: int

    ghost predicate Valid()
      reads this
    {
      && 0 < data.Length && tail < data.Length && size <= data.Length
      && head == Cell(data.Length, tail, size)
      && dropcount == I32(dropcount)
    }

    ghost function Contents(): (q: seq<T>)
      requires Valid()
      reads this, data
    {
      Window(data[..], tail, size)
    }

    constructor (cap: nat, zero: T)
      requires 0 < cap
      ensures Valid() && fresh(data) && data.Length == cap
      ensures Contents() == [] && dropcount == 0
      ensures head == 0 && tail == 0 && data[..] == seq(cap, _ => zero)
    {
      data := new T[cap](_ => zero);
      head, tail, size, dropcount := 0, 0, 0, 0;
      new;
      assert data[..] == seq(cap, _ => zero);
    }

    method Push(v: T)
      requires Valid()
      modifies this, data
      ensures Valid()
      ensures Contents() == Pushed(old(Contents()), v, data.Length)
      ensures dropcount == if old(size) == data.Length then I32(old(dropcount) + 1) else old(dropcount)
      ensures data[..] == old(data[..])[old(head) := v]
      ensures tail == if old(size) == data.Length then Cell(data.Length, old(tail), 1) else old(tail)
    {
      ghost var was := data[..];
      PushWindow(was, was[head := v], tail, size, v);
      if size == 0 {
        data[head] := v;
        assert data[..] == was[head := v];
        head := Advance(data.Length, head, 1);
        size := size + 1;
        return;
      }
      if size == data.Length {
        tail := Advance(data.Length, tail, 1);
        dropcount := I32(dropcount + 1);
      } else {
        size := size + 1;
      }
      data[head] := v;
      assert data[..] == was[head := v];
      head := Advance(data.Length, head, 1);
    }

    method Pop() returns (r: Option<T>)
      requires Valid()
      modifies this`tail, this`size
      ensures Valid()
      ensures if old(Contents()) == [] then r == None && Contents() == []
              else r == Some(old(Contents())[0]) && Contents() == old(Contents())[1..]
      ensures tail == if old(size) == 0 then old(tail) else Cell(data.Length, old(tail), 1)
    {
      if size == 0 {
        return None;
      }
      WindowDrop(data[..], tail, size, 1);
      r := Some(data[tail]);
      tail := Advance(data.Length, tail, 1);
      size := size - 1;
    }

    method GetSize() returns (n: nat)
      requires Valid()
      ensures n == |Contents()|
    {
      n := size;
    }

    method GetLost() returns (n: int)
      ensures n == dropcount
    {
      n := dropcount;
    }

    method ResetLost()
      requires Valid()
      modifies this`dropcount
      ensures Valid() && dropcount == 0 && Contents() == old(Contents())
    {
      dropcount := 0;
    }
  }

  class SensorRing<V, S> {
    const buffer: array<V>
    const timestamps: array<S>
    var head: nat
    var tail: nat
    var size: nat

    ghost predicate Valid()
      reads this
    {
      && 0 < buffer.Length == timestamps.Length && buffer as object != timestamps as object
      && tail < buffer.Length && size <= buffer.Length
      && head == Cell(buffer.Length, tail, size)
    }

    /** The two arrays side by side. */
    ghost function Slots(): (d: seq<(V, S)>)
      requires Valid()
      reads this, buffer, timestamps
    {
      Paired(buffer[..], timestamps[..])
    }

    ghost function Contents(): (q: seq<(V, S)>)
      requires Valid()
      reads this, buffer, timestamps
    {
      Window(Slots(), tail, size)
    }

    constructor (cap: nat, zero: V, blank: S)
      requires 0 < cap
      ensures Valid() && fresh(buffer) && fresh(timestamps) && buffer.Length == cap
      ensures Contents() == [] && head == 0 && tail == 0
      ensures Slots() == seq(cap, _ => (zero, blank))
    {
      buffer := new V[cap](_ => zero);
      timestamps := new S[cap](_ => blank);
      head, tail, size := 0, 0, 0;
      new;
      assert Slots() == seq(cap, _ => (zero, blank));
    }

    /** Both halves of the slot at `head`. */
    method WriteSlot(value: V, stamp: S)
      requires Valid()
      modifies buffer, timestamps
      ensures Slots() == old(Slots())[head := (value, stamp)]
    {
      PairedUpdate(buffer[..], timestamps[..], head, value, stamp);
      timestamps[head] := stamp;
      buffer[head] := value;
      assert buffer[..] == old(buffer[..])[head := value];
      assert timestamps[..] == old(timestamps[..])[head := stamp];
    }

    method Push(value: V, stamp: S)
      requires Valid()
      modifies this, buffer, timestamps
      ensures Valid()
      ensures Contents() == Pushed(old(Contents()), (value, stamp), buffer.Length)
      ensures Slots() == old(Slots())[old(head) := (value, stamp)]
      ensures tail == if old(size) == buffer.Length then Cell(buffer.Length, old(tail), 1) else old(tail)
    {
      ghost var was := Slots();
      PushWindow(was, was[head := (value, stamp)], tail, size, (value, stamp));
      WriteSlot(value, stamp);
      head := Advance(buffer.Length, head, 1);
      if size < buffer.Length {
        size := size + 1;
      } else {
        tail := Advance(buffer.Length, tail, 1);
      }
    }

    method Pop() returns (r: Option<(V, S)>)
      requires Valid()
      modifies this`tail, this`size
      ensures Valid()
      ensures if old(Contents()) == [] then r == None && Contents() == []
              else r == Some(old(Contents())[0]) && Contents() == old(Contents())[1..]
      ensures tail == if old(size) == 0 then old(tail) else Cell(buffer.Length, old(tail), 1)
    {
      if size == 0 {
        return None;
      }
      WindowDrop(Slots(), tail, size, 1);
      r := Some((buffer[tail], timestamps[tail]));
      tail := Advance(buffer.Length, tail, 1);
      size := size - 1;
    }

    method IsEmpty() returns (empty: bool)
      requires Valid()
      ensures empty <==> Contents() == []
    {
      empty := size == 0;
    }
  }

  /** Same slots, same indices. */
  ghost predicate Twins<V, S>(a: RingBuf<(V, S)>, b: SensorRing<V, S>)
    requires a.Valid() && b.Valid()
    reads a, a.data, b, b.buffer, b.timestamps
  {
    a.data[..] == b.Slots() && a.tail == b.tail && a.size == b.size
  }

  ghost predicate Apart<V, S>(a: RingBuf<(V, S)>, b: SensorRing<V, S>) {
    && a.data.Length == b.buffer.Length
    && {a as object, a.data} !! {b as object, b.buffer, b.timestamps}
  }

  method PushBoth<V, S>(a: RingBuf<(V, S)>, b: SensorRing<V, S>, x: (V, S))
    requires a.Valid() && b.Valid() && Apart(a, b) && a.Contents() == b.Contents()
    modifies a, a.data, b, b.buffer, b.timestamps
    ensures a.Valid() && b.Valid() && (old(Twins(a, b)) ==> Twins(a, b))
    ensures a.Contents() == b.Contents() == Pushed(old(a.Contents()), x, a.data.Length)
    ensures a.dropcount ==
            if |old(a.Contents())| == a.data.Length then I32(old(a.dropcount) + 1) else old(a.dropcount)
  {
    a.Push(x);
    b.Push(x.0, x.1);
  }

  method PopBoth<V, S>(a: RingBuf<(V, S)>, b: SensorRing<V, S>) returns (x: Option<(V, S)>, y: Option<(V, S)>)
    requires a.Valid() && b.Valid() && Apart(a, b) && a.Contents() == b.Contents()
    modifies a`tail, a`size, b`tail, b`size
    ensures a.Valid() && b.Valid() && (old(Twins(a, b)) ==> Twins(a, b)) && x == y
    ensures a.Contents() == b.Contents()
    ensures if old(a.Contents()) == [] then x == None && a.Contents() == []
            else x == Some(old(a.Contents())[0]) && a.Contents() == old(a.Contents())[1..]
  {
    x := a.Pop();
    y := b.Pop();
  }

  /** One operation on both rings, against one step of the specification run. */
  method StepBoth<V, S>(a: RingBuf<(V, S)>, b: SensorRing<V, S>, op: Op<(V, S)>,
                        ghost h: Hist<(V, S)>, ghost drops: int)
    returns (ra: seq<Option<(V, S)>>, rb: seq<Option<(V, S)>>)
    requires a.Valid() && b.Valid() && Apart(a, b) && a.Contents() == b.Contents() == h.q
    requires a.dropcount == I32(drops + |h.dropped|)
    modifies a, a.data, b, b.buffer, b.timestamps
    ensures a.Valid() && b.Valid() && (old(Twins(a, b)) ==> Twins(a, b)) && ra == rb
    ensures var h' := Apply(h, op, a.data.Length);
            && a.Contents() == b.Contents() == h'.q && h.results + ra == h'.results
            && a.dropcount == I32(drops + |h'.dropped|)
  {
    ra, rb := [], [];
    match op {
      case Push(x) =>
        I32Step(drops + |h.dropped|);
        PushBoth(a, b, x);
      case Pop =>
        var x, y := PopBoth(a, b);
        ra, rb := [x], [y];
    }
  }

  lemma {:induction false} ReplayOne<T>(q0: seq<T>, ops: seq<Op<T>>, i: nat, cap: nat)
    requires i < |ops|
    ensures Run(q0, ops[..i + 1], cap) == Apply(Run(q0, ops[..i], cap), ops[i], cap)
  {
    RunSnoc(q0, ops[..i], ops[i], cap);
    assert ops[..i + 1] == ops[..i] + [ops[i]];
  }

  /** Both implementations, run side by side on any sequence of operations from any equal
      contents, return the same results and keep equal contents, those of the specification
      run, and the drop count grows by the entries dropped. Rings that also start equal slot
      for slot stay so: the special case for an empty ring in `ringbuf_push` changes nothing. */
  method Replay<V, S>(a: RingBuf<(V, S)>, b: SensorRing<V, S>, ops: seq<Op<(V, S)>>)
    returns (ra: seq<Option<(V, S)>>, rb: seq<Option<(V, S)>>)
    requires a.Valid() && b.Valid() && Apart(a, b) && a.Contents() == b.Contents()
    modifies a, a.data, b, b.buffer, b.timestamps
    ensures a.Valid() && b.Valid() && (old(Twins(a, b)) ==> Twins(a, b))
    ensures ra == rb && a.Contents() == b.Contents()
    ensures var h := Run(old(a.Contents()), ops, a.data.Length);
            ra == h.results && a.Contents() == h.q && a.dropcount == I32(old(a.dropcount) + |h.dropped|)
  {
    ra, rb := [], [];
    ghost var cap, q0, drops := a.data.Length, a.Contents(), a.dropcount;
    ghost var h := Start(q0);
    for i := 0 to |ops|
      invariant a.Valid() && b.Valid() && (old(Twins(a, b)) ==> Twins(a, b))
      invariant h == Run(q0, ops[..i], cap) && ra == rb == h.results
      invariant a.Contents() == b.Contents() == h.q && a.dropcount == I32(drops + |h.dropped|)
    {
      ReplayOne(q0, ops, i, cap);
      var x, y := StepBoth(a, b, ops[i], h, drops);
      ra, rb := ra + x, rb + y;
      h := Apply(h, ops[i], cap);
    }
    assert ops[..|ops|] == ops;
  }

  /** Two freshly made rings of one capacity. */
  method ReplayFresh<V, S>(cap: nat, zero: V, blank: S, ops: seq<Op<(V, S)>>)
    returns (ra: seq<Option<(V, S)>>, rb: seq<Option<(V, S)>>, a: RingBuf<(V, S)>, b: SensorRing<V, S>)
    requires 0 < cap
    ensures a.Valid() && b.Valid() && Twins(a, b) && ra == rb
    ensures var h := Run([], ops, cap);
            ra == h.results && a.Contents() == h.q && b.Contents() == h.q && a.dropcount == I32(|h.dropped|)
  {
    a := new RingBuf<(V, S)>(cap, (zero, blank));
    b := new SensorRing<V, S>(cap, zero, blank);
    ra, rb := Replay(a, b, ops);
  }

  // ---------------------------------------------------------------- the batch reader

  /** sizeof(struct rbdata): a 64-bit timestamp and two 32-bit words. */
  const RECORD: nat := 16

  datatype ReadResult = Bytes(n: nat) | Again | Interrupted | Failed

  function Pushes<T>(xs: seq<T>): (ops: seq<Op<T>>)
    ensures |ops| == |xs|
  {
    seq(|xs|, i requires 0 <= i < |xs| => Push(xs[i]))
  }

  /** Arrivals scheduled before the i-th pop; none past the end of the schedule. */
  function Before<T>(arrivals: seq<seq<T>>, i: nat): seq<T> {
    if i < |arrivals| then arrivals[i] else []
  }

  /** n pops, each preceded by its arrivals. */
  function Interleaved<T>(arrivals: seq<seq<T>>, n: nat): seq<Op<T>> {
    if n == 0 then [] else Interleaved(arrivals, n - 1) + Pushes(Before(arrivals, n - 1)) + [Pop]
  }

  /** One more arrival. */
  lemma {:induction false} ArriveOne<T>(q0: seq<T>, ops: seq<Op<T>>, xs: seq<T>, i: nat, cap: nat)
    requires i < |xs|
    ensures Run(q0, ops + Pushes(xs[..i + 1]), cap) == Apply(Run(q0, ops + Pushes(xs[..i]), cap), Push(xs[i]), cap)
  {
    assert ops + Pushes(xs[..i + 1]) == ops + Pushes(xs[..i]) + [Push(xs[i])];
    RunSnoc(q0, ops + Pushes(xs[..i]), Push(xs[i]), cap);
  }

  lemma {:induction false} PushesLeaveResults<T>(q0: seq<T>, ops: seq<Op<T>>, xs: seq<T>, n: nat, cap: nat)
    requires n <= |xs|
    ensures Run(q0, ops + Pushes(xs[..n]), cap).results == Run(q0, ops, cap).results
  {
    if n == 0 {
      assert ops + Pushes(xs[..0]) == ops;
    } else {
      PushesLeaveResults(q0, ops, xs, n - 1, cap);
      ArriveOne(q0, ops, xs, n - 1, cap);
    }
  }

  /** Pushing onto an empty ring fills it up to its capacity. */
  lemma {:induction false} ArrivalsFill<T>(q0: seq<T>, xs: seq<T>, cap: nat)
    requires 0 < cap && q0 == []
    ensures |Run(q0, Pushes(xs), cap).q| == Min(|xs|, cap)
    decreases |xs|
  {
    if xs != [] {
      var n := |xs| - 1;
      ArrivalsFill(q0, xs[..n], cap);
      ArriveOne(q0, [], xs, n, cap);
      assert xs[..n + 1] == xs && [] + Pushes(xs) == Pushes(xs) && [] + Pushes(xs[..n]) == Pushes(xs[..n]);
    }
  }

  /** The interrupt side runs: every entry of `xs` is pushed. */
  method Arrive<T>(r: RingBuf<T>, xs: seq<T>, ghost q0: seq<T>, ghost ops: seq<Op<T>>)
    requires r.Valid() && |q0| <= r.data.Length && r.Contents() == Run(q0, ops, r.data.Length).q
    modifies r, r.data
    ensures r.Valid() && r.Contents() == Run(q0, ops + Pushes(xs), r.data.Length).q
    ensures r.size >= old(r.size)
    ensures xs != [] ==> r.size > 0
  {
    assert ops + Pushes(xs[..0]) == ops;
    for i := 0 to |xs|
      invariant r.Valid() && r.Contents() == Run(q0, ops + Pushes(xs[..i]), r.data.Length).q
      invariant r.size >= old(r.size) && (i > 0 ==> r.size > 0)
    {
      r.Push(xs[i]);
      ArriveOne(q0, ops, xs, i, r.data.Length);
    }
    assert xs[..|xs|] == xs;
  }

  /** The pop loop: `len` records are taken while anything may arrive in between. The ring can
      never run dry, because arrivals never shrink it. */
  method TakeRecords<T>(r: RingBuf<T>, len: nat, arrivals: seq<seq<T>>) returns (ok: bool, out: seq<T>)
    requires r.Valid() && len <= r.size
    modifies r, r.data
    ensures r.Valid() && ok && |out| == len
    ensures var h := Run(old(r.Contents()), Interleaved(arrivals, len), r.data.Length);
            r.Contents() == h.q && out == Records(h.results)
  {
    ghost var q0, cap := r.Contents(), r.data.Length;
    ok, out := true, [];
    for i := 0 to len
      invariant r.Valid() && ok && |out| == i && r.size >= len - i
      invariant r.Contents() == Run(q0, Interleaved(arrivals, i), cap).q
      invariant out == Records(Run(q0, Interleaved(arrivals, i), cap).results)
    {
      Arrive(r, Before(arrivals, i), q0, Interleaved(arrivals, i));
      ghost var ops := Interleaved(arrivals, i) + Pushes(Before(arrivals, i));
      var v := r.Pop();
      RunSnoc(q0, ops, Pop, cap);
      PushesLeaveResults(q0, Interleaved(arrivals, i), Before(arrivals, i), |Before(arrivals, i)|, cap);
      assert Before(arrivals, i)[..|Before(arrivals, i)|] == Before(arrivals, i);
      RecordsSnoc(Run(q0, ops, cap).results, v);
      if v.None? { return false, out; }
      out := out + [v.value];
    }
  }

  /** How many entries the reader finds: what was queued, or what arrives while it sleeps. */
  function Found(queued: nat, nonblock: bool, asleep: nat, cap: nat): nat {
    if queued > 0 then queued else if nonblock then 0 else Min(asleep, cap)
  }

  /** The queue as the reader finds it. */
  function Snapshot<T>(queued: seq<T>, asleep: seq<T>, cap: nat): seq<T> {
    if queued != [] then queued else Run([], Pushes(asleep), cap).q
  }

  /** `myfbread` for a sole reader. `asleep` arrives while the reader is blocked on an empty
      ring, `arrivals[i]` just before its i-th pop; a wait that ends with nothing queued was
      ended by a signal. The loop never breaks off: the reader gets exactly as many whole
      records as were queued when it looked, or as its buffer holds, if that is less. */
  method ReadBatch<T>(r: RingBuf<T>, count: nat, nonblock: bool, asleep: seq<T>, arrivals: seq<seq<T>>)
    returns (ret: ReadResult, out: seq<T>)
    requires r.Valid()
    modifies r, r.data
    ensures r.Valid()
    ensures var found := Found(|old(r.Contents())|, nonblock, |asleep|, r.data.Length);
            if found == 0 then
              out == [] && r.Contents() == [] && ret == if nonblock then Again else Interrupted
            else
              var seen := Snapshot(old(r.Contents()), asleep, r.data.Length);
              && |seen| == found
              && |out| == Min(found, count / 16) && ret == Bytes(16 * |out|)
              && out == Records(Run(seen, Interleaved(arrivals, |out|), r.data.Length).results)
              && r.Contents() == Run(seen, Interleaved(arrivals, |out|), r.data.Length).q
  {
    out := [];
    var len := r.GetSize();
    if len == 0 && !nonblock {
      Arrive(r, asleep, [], []);
      ArrivalsFill([], asleep, r.data.Length);
      assert [] + Pushes(asleep) == Pushes(asleep);
      len := r.GetSize();
      if len == 0 {
        return Interrupted, [];
      }
    } else if len == 0 && nonblock {
      return Again, [];
    }
    if len > count / RECORD {
      len := count / RECORD;
    }
    var ok;
    ok, out := TakeRecords(r, len, arrivals);
    ret := if ok then Bytes(RECORD * len) else Failed;
  }
}
