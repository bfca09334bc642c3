/** The RAM disk of myblkdev/blk.c: one request is a start sector and a list of memory
    segments, served segment by segment against a flat store.
 */
module BlockStore {
  import opened Word

  const NUM_SECTORS: nat := 1024
  const SECTOR: nat := 512
  const CAPACITY: nat := NUM_SECTORS * SECTOR

  datatype Dir = READ | WRITE

  datatype Status = OK | IOERR

  function Flat(segs: seq<seq<byte>>): seq<byte> {
    if segs == [] then [] else Flat(segs[..|segs| - 1]) + segs[|segs| - 1]
  }

  /** k leading segments fit: each was checked against the end of the store in turn. */
  predicate Fit(off: nat, segs: seq<seq<byte>>, k: nat)
    requires k <= |segs|
  {
    k == 0 || off + |Flat(segs[..k])| <= CAPACITY
  }

  /** How many leading segments a request transfers. */
  function Fitting(off: nat, segs: seq<seq<byte>>): (k: nat)
    ensures k <= |segs|
  {
    if segs == [] then 0
    else
      var k := Fitting(off, segs[..|segs| - 1]);
      if k == |segs| - 1 && off + |Flat(segs)| <= CAPACITY then |segs| else k
  }

  /** mem with `bytes` laid down at `off`. */
  function Patched(mem: seq<byte>, off: nat, bytes: seq<byte>): (m: seq<byte>)
    requires bytes != [] ==> off + |bytes| <= |mem|
    ensures |m| == |mem|
  {
    if bytes == [] then mem else mem[..off] + bytes + mem[off + |bytes|..]
  }

  lemma FlatSnoc(segs: seq<seq<byte>>, k: nat)
    requires k < |segs|
    ensures Flat(segs[..k + 1]) == Flat(segs[..k]) + segs[k]
  {
    assert segs[..k + 1][..k] == segs[..k];
  }

  lemma {:induction false} FlatGrows(segs: seq<seq<byte>>, j: nat, k: nat)
    requires j <= k <= |segs|
    ensures |Flat(segs[..j])| <= |Flat(segs[..k])|
    decreases k - j
  {
    if j < k {
      FlatSnoc(segs, j);
      FlatGrows(segs, j + 1, k);
    }
  }

  /** The transferred segments are exactly the longest prefix of whole segments that fits. */
  lemma {:induction false} FittingIsLongest(off: nat, segs: seq<seq<byte>>, j: nat)
    requires j <= |segs|
    ensures Fit(off, segs, j) <==> j <= Fitting(off, segs)
  {
    if segs != [] {
      var n := |segs| - 1;
      var init := segs[..n];
      FittingIsLongest(off, init, n);
      if j <= n {
        FittingIsLongest(off, init, j);
        assert init[..j] == segs[..j];
      } else {
        assert segs[..|segs|] == segs && init[..n] == init;
        FlatGrows(segs, n, |segs|);
      }
    }
  }

  /** The first k buffers hold consecutive bytes of the store; the others are untouched. */
  ghost predicate Filled(mem: seq<byte>, off: nat, segs: seq<seq<byte>>, bufs: seq<seq<byte>>, k: nat)
    requires k <= |segs| && |mem| == CAPACITY && Fit(off, segs, k)
  {
    && |bufs| == |segs| && bufs[k..] == segs[k..]
    && (forall i :: 0 <= i < k ==> |bufs[i]| == |segs[i]|)
    && (k > 0 ==> Flat(bufs[..k]) == mem[off..off + |Flat(segs[..k])|])
  }

  /** The state of a request after k segments: a write has laid down their bytes in one piece
      and left all other bytes alone; a read has filled the first k buffers and nothing else. */
  ghost predicate Served(dir: Dir, was: seq<byte>, mem: seq<byte>, off: nat,
                         segs: seq<seq<byte>>, bufs: seq<seq<byte>>, k: nat)
  {
    && k <= |segs| && |was| == |mem| == CAPACITY && Fit(off, segs, k)
    && (dir == WRITE ==> bufs == segs && mem == Patched(was, off, Flat(segs[..k])))
    && (dir == READ ==> mem == was && Filled(mem, off, segs, bufs, k))
  }

  lemma FilledOne(mem: seq<byte>, off: nat, segs: seq<seq<byte>>, bufs: seq<seq<byte>>, k: nat)
    requires k < |segs| && |mem| == CAPACITY && Fit(off, segs, k) && Fit(off, segs, k + 1)
    requires Filled(mem, off, segs, bufs, k)
    ensures var at := off + |Flat(segs[..k])|;
            && at + |segs[k]| <= |mem|
            && Filled(mem, off, segs, bufs[k := mem[at..at + |segs[k]|]], k + 1)
  {
    FlatSnoc(segs, k);
    var at := off + |Flat(segs[..k])|;
    var bufs' := bufs[k := mem[at..at + |segs[k]|]];
    FlatSnoc(bufs', k);
    assert bufs'[..k] == bufs[..k];
    assert mem[off..at] + mem[at..at + |segs[k]|] == mem[off..at + |segs[k]|];
  }

  lemma PatchedTwice(mem: seq<byte>, off: nat, a: seq<byte>, b: seq<byte>)
    requires off + |a| + |b| <= |mem|
    ensures Patched(Patched(mem, off, a), off + |a|, b) == Patched(mem, off, a + b)
  {
  }

  lemma Stops(off: nat, segs: seq<seq<byte>>, i: nat)
    requires i < |segs| && Fit(off, segs, i) && !Fit(off, segs, i + 1)
    ensures Fitting(off, segs) == i
  {
    FittingIsLongest(off, segs, i);
    FittingIsLongest(off, segs, i + 1);
  }

  class Store {
    const mem: array<byte>

    ghost predicate Valid() { mem.Length == CAPACITY }

    constructor ()
      ensures Valid() && fresh(mem)
      ensures mem[..] == seq(CAPACITY, _ => 0)
    {
      mem := new byte[CAPACITY](_ => 0);
      new;
      assert mem[..] == seq(CAPACITY, _ => 0);
    }

    /** memcpy into the store. */
    method CopyIn(off: nat, src: seq<byte>)
      requires off + |src| <= mem.Length
      modifies mem
      ensures mem[..] == Patched(old(mem[..]), off, src)
    {
      for i := 0 to |src|
        invariant forall c :: 0 <= c < mem.Length ==>
                    mem[c] == if off <= c < off + i then src[c - off] else old(mem[c])
      {
        mem[off + i] := src[i];
      }
    }

    /** One segment of a request whose first i segments are done. */
    method ServeSegment(start: nat, dir: Dir, segs: seq<seq<byte>>, bufs: seq<seq<byte>>, i: nat, off: nat,
                        ghost was: seq<byte>)
      returns (bufs': seq<seq<byte>>)
      requires Valid() && i < |segs| && off == start + |Flat(segs[..i])| && off + |segs[i]| <= CAPACITY
      requires Served(dir, was, mem[..], start, segs, bufs, i)
      modifies mem
      ensures Served(dir, was, mem[..], start, segs, bufs', i + 1)
    {
      FlatSnoc(segs, i);
      if dir == WRITE {
        PatchedTwice(was, start, Flat(segs[..i]), segs[i]);
        CopyIn(off, segs[i]);
        bufs' := bufs;
      } else {
        FilledOne(mem[..], start, segs, bufs, i);
        bufs' := bufs[i := mem[..][off..off + |segs[i]|]];
      }
    }

    /** `block_queue_rq`: `bufs` are the segment buffers after the request. */
    method QueueRequest(sector: nat, dir: Dir, segs: seq<seq<byte>>)
      returns (status: Status, bufs: seq<seq<byte>>)
      requires Valid()
      modifies mem
      ensures var k := Fitting(sector * SECTOR, segs);
              && (status == OK <==> k == |segs|)
              && Served(dir, old(mem[..]), mem[..], sector * SECTOR, segs, bufs, k)
    {
      var start := sector * SECTOR;
      var off := start;
      bufs := segs;
      var i := 0;
      assert segs[..0] == [];
      while i < |segs|
        invariant i <= |segs| && off == start + |Flat(segs[..i])|
        invariant Served(dir, old(mem[..]), mem[..], start, segs, bufs, i)
      {
        FlatSnoc(segs, i);
        if off + |segs[i]| > CAPACITY {
          Stops(start, segs, i);
          return IOERR, bufs;
        }
        bufs := ServeSegment(start, dir, segs, bufs, i, off, old(mem[..]));
        off := off + |segs[i]|;
        i := i + 1;
      }
      FittingIsLongest(start, segs, |segs|);
      status := OK;
    }
  }

  lemma WholeRequest(off: nat, segs: seq<seq<byte>>)
    requires segs != [] && off + |Flat(segs)| <= CAPACITY
    ensures Fitting(off, segs) == |segs| && segs[..|segs|] == segs
  {
    assert segs[..|segs|] == segs;
    FittingIsLongest(off, segs, |segs|);
  }

  lemma PatchedReadsBack(mem: seq<byte>, off: nat, bytes: seq<byte>)
    requires off + |bytes| <= |mem|
    ensures Patched(mem, off, bytes)[off..off + |bytes|] == bytes
    ensures forall c :: 0 <= c < |mem| && !(off <= c < off + |bytes|) ==> Patched(mem, off, bytes)[c] == mem[c]
  {
  }

  /** In numbers: a one-sector request succeeds exactly for the sectors 0 to 1023. */
  lemma SectorFitsIff(sector: nat, seg: seq<byte>)
    requires |seg| == 512
    ensures Fitting(sector * SECTOR, [seg]) == 1 <==> sector < 1024
  {
    FittingIsLongest(sector * SECTOR, [seg], 1);
    assert [seg][..1] == [seg] && Flat([seg]) == Flat([]) + seg;
  }

  /** And writing one sector leaves every other one alone. */
  lemma SectorsApart(mem: seq<byte>, sector: nat, other: nat, seg: seq<byte>)
    requires |mem| == CAPACITY && |seg| == 512 && sector < 1024 && other < 1024 && sector != other
    ensures var m := Patched(mem, sector * SECTOR, seg);
            && m[sector * SECTOR..sector * SECTOR + 512] == seg
            && m[other * SECTOR..other * SECTOR + 512] == mem[other * SECTOR..other * SECTOR + 512]
  {
    PatchedReadsBack(mem, sector * SECTOR, seg);
  }

  /** A request that fits is one flat transfer: it succeeds exactly when its bytes fit, and then
      neither its success nor what it writes depends on how the bytes were cut into segments. */
  lemma SegmentationIsInvisible(off: nat, segs: seq<seq<byte>>, segs': seq<seq<byte>>,
                                was: seq<byte>, mem: seq<byte>, mem': seq<byte>)
    requires segs != [] && segs' != [] && Flat(segs) == Flat(segs')
    ensures Fitting(off, segs) == |segs| <==> off + |Flat(segs)| <= CAPACITY
    ensures Fitting(off, segs) == |segs| <==> Fitting(off, segs') == |segs'|
    ensures Fitting(off, segs) == |segs|
            && Served(WRITE, was, mem, off, segs, segs, Fitting(off, segs))
            && Served(WRITE, was, mem', off, segs', segs', Fitting(off, segs'))
            ==> mem == mem'
  {
    FittingIsLongest(off, segs, |segs|);
    FittingIsLongest(off, segs', |segs'|);
    assert segs[..|segs|] == segs && segs'[..|segs'|] == segs';
  }

  /** Write a request, then read the same span back through any other segmentation: the bytes
      come back, and everything outside the span is as it was. */
  method RoundTrip(store: Store, sector: nat, segs: seq<seq<byte>>, cuts: seq<seq<byte>>)
    returns (bufs: seq<seq<byte>>)
    requires store.Valid() && segs != [] && cuts != []
    requires |Flat(cuts)| == |Flat(segs)| && sector * SECTOR + |Flat(segs)| <= CAPACITY
    modifies store.mem
    ensures Flat(bufs) == Flat(segs)
    ensures |bufs| == |cuts| && forall i :: 0 <= i < |cuts| ==> |bufs[i]| == |cuts[i]|
    ensures forall c :: 0 <= c < CAPACITY && !(sector * SECTOR <= c < sector * SECTOR + |Flat(segs)|) ==>
              store.mem[c] == old(store.mem[c])
  {
    ghost var off, was := sector * SECTOR, store.mem[..];
    WholeRequest(off, segs);
    WholeRequest(off, cuts);
    PatchedReadsBack(was, off, Flat(segs));
    var s1, b1 := store.QueueRequest(sector, WRITE, segs);
    var s2;
    s2, bufs := store.QueueRequest(sector, READ, cuts);
    assert bufs[..|cuts|] == bufs;
    assert forall c :: 0 <= c < CAPACITY ==> store.mem[c] == store.mem[..][c] && was[c] == old(store.mem[c]);
  }
}
