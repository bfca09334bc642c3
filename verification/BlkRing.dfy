/** The mmap'd byte ring of practice/myblkdev: the control block, the data area,
    and the two operations run without interference. BlkRingProtocol interleaves
    their micro-steps.
 */
module BlkRing {
  import opened RingIndex
  import opened Word

  /** `size` is a 32-bit field of the control block. */
  const SIZE_LIMIT: nat := 0x1_0000_0000

  /** Free bytes as the producer computes them; one cell is always kept empty. */
  function FreeSpace(size: nat, head: nat, tail: nat): (f: nat)
    requires head < size && tail < size
    ensures f == size - 1 - Occupied(size, tail, head)
  {
    if head >= tail then size - (head - tail) - 1 else tail - head - 1
  }

  /** Loop passes still needed to drain from `tail` to `head` if `head` stays put. */
  function Passes(tail: nat, head: nat): (p: nat)
    ensures p <= 2
    ensures p == 0 <==> tail == head
  {
    if tail == head then 0 else if tail < head || head == 0 then 1 else 2
  }

  /** Copying `src` behind the unread bytes and moving `head` past it appends `src`. */
  lemma Published(data: seq<byte>, data': seq<byte>, tail: nat, head: nat, src: seq<byte>)
    requires |data| == |data'| && tail < |data| && head < |data|
    requires |src| <= FreeSpace(|data|, head, tail)
    requires forall j :: 0 <= j < |src| ==> data'[Cell(|data|, head, j)] == src[j]
    requires forall c :: 0 <= c < |data| && Occupied(|data|, head, c) >= |src| ==> data'[c] == data[c]
    ensures Unread(data', tail, Cell(|data|, head, |src|)) == Unread(data, tail, head) + src
    ensures |Unread(data, tail, head) + src| <= |data| - 1
    ensures forall i :: 0 <= i < Occupied(|data|, tail, head) ==>
              data'[Cell(|data|, tail, i)] == data[Cell(|data|, tail, i)]
  {
    var n := |data|;
    var occ := Occupied(n, tail, head);
    forall i | 0 <= i < occ
      ensures data'[Cell(n, tail, i)] == data[Cell(n, tail, i)]
    {
      assert Occupied(n, head, Cell(n, tail, i)) >= |src|;
    }
    WindowAppend(data, data', tail, occ, src);
    assert Occupied(n, tail, Cell(n, head, |src|)) == occ + |src|;
  }

  /** One pass of the drain: `gone` bytes are contiguous from `tail`, the tail moves past them. */
  lemma Released(data: seq<byte>, tail: nat, head: nat, tail': nat)
    requires tail < |data| && head < |data| && tail != head
    requires tail' == if tail < head then head else 0
    ensures data[tail..if tail < head then head else |data|] + Unread(data, tail', head) == Unread(data, tail, head)
    ensures Passes(tail', head) == Passes(tail, head) - 1
  {
    var end := if tail < head then head else |data|;
    var occ := Occupied(|data|, tail, head);
    WindowDrop(data, tail, occ, end - tail);
    assert data[tail..end] == Window(data, tail, occ)[..end - tail];
    assert Cell(|data|, tail, end - tail) == tail';
    assert Occupied(|data|, tail', head) == occ - (end - tail);
  }

  class Ring {
    var head: nat
    var tail: nat
    const size: nat
    var overflow: nat
    const data: array<byte>

    ghost predicate Valid()
      reads this
    {
      && 0 < size < SIZE_LIMIT && data.Length == size
      && head < size && tail < size
    }

    /** The bytes published by the producer and not yet released by the consumer. */
    ghost function Contents(): (s: seq<byte>)
      requires Valid()
      reads this, data
    {
      Unread(data[..], tail, head)
    }

    constructor (size: nat)
      requires 0 < size < SIZE_LIMIT
      ensures Valid() && fresh(data) && this.size == size && Contents() == [] && overflow == 0
    {
      this.size := size;
      data := new byte[size](_ => 0);
      head, tail, overflow := 0, 0, 0;
    }

    /** memcpy(data + at, src, |src|). */
    method CopyIn(at: nat, src: seq<byte>)
      requires at + |src| <= data.Length
      modifies data
      ensures forall c :: 0 <= c < data.Length ==>
                data[c] == if at <= c < at + |src| then src[c - at] else old(data[c])
    {
      for i := 0 to |src|
        invariant forall c :: 0 <= c < data.Length ==>
                    data[c] == if at <= c < at + i then src[c - at] else old(data[c])
      {
        data[at + i] := src[i];
      }
    }

    /** The one or two copies that lay `src` down from cell `at`, across the wrap. */
    method CopyAround(at: nat, src: seq<byte>)
      requires Valid() && at < size && |src| < size
      modifies data
      ensures forall j :: 0 <= j < |src| ==> data[Cell(size, at, j)] == src[j]
      ensures forall c :: 0 <= c < size && Occupied(size, at, c) >= |src| ==> data[c] == old(data[c])
    {
      if at + |src| <= size {
        CopyIn(at, src);
      } else {
        var first := size - at;
        CopyIn(at, src[..first]);
        CopyIn(0, src[first..]);
      }
    }

    /** Copy first, publish the new head last. */
    method Append(src: seq<byte>)
      requires Valid() && |src| <= FreeSpace(size, head, tail)
      modifies this`head, data
      ensures Valid()
      ensures Contents() == old(Contents()) + src
      ensures forall i :: 0 <= i < Occupied(size, tail, old(head)) ==>
                data[Cell(size, tail, i)] == old(data[Cell(size, tail, i)])
    {
      ghost var before := data[..];
      CopyAround(head, src);
      Published(before, data[..], tail, head, src);
      head := Advance(size, head, |src|);
    }

    method ProduceData(src: seq<byte>)
      requires Valid()
      modifies this`head, this`overflow, data
      ensures Valid()
      ensures Contents() == old(Contents()) + src[..Min(|src|, old(FreeSpace(size, head, tail)))]
      ensures |Contents()| <= size - 1
      ensures overflow == if |src| > old(FreeSpace(size, head, tail)) then U32(old(overflow) + 1) else old(overflow)
      ensures forall i :: 0 <= i < Occupied(size, tail, old(head)) ==>
                data[Cell(size, tail, i)] == old(data[Cell(size, tail, i)])
    {
      var free := if head >= tail then size - (head - tail) - 1 else tail - head - 1;
      var len := |src|;
      if len > free {
        overflow := U32(overflow + 1);
        len := free;
      }
      assert src[..len] == src[..Min(|src|, FreeSpace(size, head, tail))];
      if len > 0 {
        Append(src[..len]);
      }
    }

    /** The body of the drain loop: write out one contiguous span, then move the tail. */
    method DrainSpan() returns (span: seq<byte>)
      requires Valid() && tail != head
      modifies this`tail
      ensures Valid()
      ensures span + Contents() == old(Contents())
      ensures Passes(tail, head) == Passes(old(tail), head) - 1
    {
      ghost var was := tail;
      if tail < head {
        span := data[tail..head];
        tail := head;
      } else {
        span := data[tail..size];
        tail := 0;
      }
      Released(data[..], was, head, tail);
    }

    /** `consume_ring` with nobody else running: `out` is what reaches stdout. */
    method ConsumeRing() returns (out: seq<byte>, iterations: nat)
      requires Valid()
      modifies this`tail
      ensures Valid() && Contents() == []
      ensures out == old(Contents())
      ensures iterations == old(Passes(tail, head))
    {
      ghost var all := Contents();
      out, iterations := [], 0;
      while tail != head
        invariant Valid()
        invariant out + Contents() == all
        invariant iterations + Passes(tail, head) == old(Passes(tail, head))
        decreases Passes(tail, head)
      {
        var span := DrainSpan();
        assert out + (span + Contents()) == (out + span) + Contents();
        out, iterations := out + span, iterations + 1;
      }
      assert |Contents()| == 0;
    }
  }
}
