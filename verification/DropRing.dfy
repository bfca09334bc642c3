/** The specification both overwriting rings share: append, then drop the oldest entry if the
    ring is over capacity. Runs of pushes and pops are recorded with the fate of every entry.
 */
module DropRing {
  import opened Wrappers

  datatype Op<T> = Push(x: T) | Pop

  function Pushed<T>(q: seq<T>, x: T, cap: nat): seq<T> {
    if |q| < cap || q == [] then q + [x] else q[1..] + [x]
  }

  /** A run: the queue, everything ever pushed, the pop results, and for each entry that left
      the queue its position in `pushed`, by the way it left. */
  datatype Hist<T> = Hist(
    q: seq<T>, pushed: seq<T>, results: seq<Option<T>>, popped: seq<int>, dropped: seq<int>)

  /** A run that starts with `q0` already queued. */
  function Start<T>(q0: seq<T>): Hist<T> { Hist(q0, q0, [], [], []) }

  /** Position in `pushed` of the oldest entry still queued. */
  function Next<T>(h: Hist<T>): int { |h.pushed| - |h.q| }

  function Apply<T>(h: Hist<T>, op: Op<T>, cap: nat): Hist<T> {
    match op
    case Push(x) =>
      h.(q := Pushed(h.q, x, cap), pushed := h.pushed + [x],
         dropped := if |h.q| < cap then h.dropped else h.dropped + [Next(h)])
    case Pop =>
      if h.q == [] then h.(results := h.results + [None])
      else h.(q := h.q[1..], results := h.results + [Some(h.q[0])], popped := h.popped + [Next(h)])
  }

  predicate Rising(s: seq<int>) {
    forall i, j :: 0 <= i < j < |s| ==> s[i] < s[j]
  }

  predicate Below(s: seq<int>, n: nat) {
    forall i :: 0 <= i < |s| ==> 0 <= s[i] < n
  }

  /** The first n positions were each popped or dropped, never both, both kinds oldest first. */
  ghost predicate Fates(n: nat, popped: seq<int>, dropped: seq<int>) {
    && |popped| + |dropped| == n
    && Rising(popped) && Rising(dropped) && Below(popped, n) && Below(dropped, n)
    && forall k :: 0 <= k < n ==> (k in dropped <==> k !in popped)
  }

  /** The records are the pushed entries at the popped positions. */
  predicate Delivers<T(==)>(records: seq<T>, pushed: seq<T>, popped: seq<int>) {
    && |records| == |popped| && Below(popped, |pushed|)
    && forall i :: 0 <= i < |popped| ==> records[i] == pushed[popped[i]]
  }

  /** The records a sequence of pop results delivered. */
  function Records<T>(results: seq<Option<T>>): seq<T> {
    if results == [] then []
    else
      var init, last := results[..|results| - 1], results[|results| - 1];
      Records(init) + if last.Some? then [last.value] else []
  }

  /** Queued entries are the latest ones; every earlier entry has its fate. */
  ghost predicate Inv<T>(h: Hist<T>, cap: nat) {
    && |h.q| <= cap && Next(h) >= 0
    && h.q == h.pushed[Next(h)..]
    && Fates(Next(h), h.popped, h.dropped)
    && Delivers(Records(h.results), h.pushed, h.popped)
  }

  lemma RecordsSnoc<T>(results: seq<Option<T>>, r: Option<T>)
    ensures Records(results + [r]) == Records(results) + if r.Some? then [r.value] else []
  {
    assert (results + [r])[..|results|] == results;
  }

  lemma FatesSnoc(n: nat, popped: seq<int>, dropped: seq<int>)
    requires Fates(n, popped, dropped)
    ensures Fates(n + 1, popped + [n], dropped)
    ensures Fates(n + 1, popped, dropped + [n])
  {
    assert n !in popped && n !in dropped;
    assert forall k :: k in popped + [n] <==> k in popped || k == n;
    assert forall k :: k in dropped + [n] <==> k in dropped || k == n;
  }

  lemma DeliversSnoc<T>(records: seq<T>, pushed: seq<T>, popped: seq<int>, k: nat)
    requires Delivers(records, pushed, popped) && k < |pushed|
    ensures Delivers(records + [pushed[k]], pushed, popped + [k])
  {
  }

  lemma PushKeepsInv<T>(h: Hist<T>, x: T, cap: nat)
    requires 0 < cap && Inv(h, cap)
    ensures Inv(Apply(h, Push(x), cap), cap)
  {
    var n := Next(h);
    FatesSnoc(n, h.popped, h.dropped);
    assert (h.pushed + [x])[n..] == h.q + [x];
    assert |h.q| == cap ==> (h.pushed + [x])[n + 1..] == h.q[1..] + [x];
  }

  lemma PopKeepsInv<T>(h: Hist<T>, cap: nat)
    requires Inv(h, cap)
    ensures Inv(Apply(h, Pop, cap), cap)
  {
    if h.q == [] {
      RecordsSnoc(h.results, None);
    } else {
      RecordsSnoc(h.results, Some(h.q[0]));
      FatesSnoc(Next(h), h.popped, h.dropped);
      assert h.q[0] == h.pushed[Next(h)];
      DeliversSnoc(Records(h.results), h.pushed, h.popped, Next(h));
      assert h.q[1..] == h.pushed[Next(h) + 1..];
    }
  }

  lemma ApplyKeepsInv<T>(h: Hist<T>, op: Op<T>, cap: nat)
    requires 0 < cap && Inv(h, cap)
    ensures Inv(Apply(h, op, cap), cap)
  {
    match op
    case Push(x) => PushKeepsInv(h, x, cap);
    case Pop => PopKeepsInv(h, cap);
  }

  /** Any run of pushes and pops on a ring that starts with `q0`. */
  function Run<T>(q0: seq<T>, ops: seq<Op<T>>, cap: nat): Hist<T> {
    if ops == [] then Start(q0) else Apply(Run(q0, ops[..|ops| - 1], cap), ops[|ops| - 1], cap)
  }

  lemma {:induction false} RunKeepsInv<T>(q0: seq<T>, ops: seq<Op<T>>, cap: nat)
    requires 0 < cap && |q0| <= cap
    ensures Inv(Run(q0, ops, cap), cap)
  {
    if ops != [] {
      RunKeepsInv(q0, ops[..|ops| - 1], cap);
      ApplyKeepsInv(Run(q0, ops[..|ops| - 1], cap), ops[|ops| - 1], cap);
    }
  }

  /** Nothing popped yet: the ring holds everything, up to its capacity. */
  lemma FillsUp<T>(h: Hist<T>, op: Op<T>, cap: nat)
    requires 0 < cap && (h.popped == [] ==> |h.q| == if |h.pushed| < cap then |h.pushed| else cap)
    ensures var h' := Apply(h, op, cap);
            h'.popped == [] ==> |h'.q| == if |h'.pushed| < cap then |h'.pushed| else cap
  {
  }

  /** The entries offered by a run, in order. */
  function Offered<T>(ops: seq<Op<T>>): seq<T> {
    if ops == [] then []
    else
      var last := ops[|ops| - 1];
      Offered(ops[..|ops| - 1]) + if last.Push? then [last.x] else []
  }

  lemma {:induction false} NothingOfferedIsForgotten<T>(q0: seq<T>, ops: seq<Op<T>>, cap: nat)
    ensures Run(q0, ops, cap).pushed == q0 + Offered(ops)
    ensures |Run(q0, ops, cap).results| + |Offered(ops)| == |ops|
  {
    if ops != [] {
      NothingOfferedIsForgotten(q0, ops[..|ops| - 1], cap);
    }
  }

  lemma {:induction false} RunSnoc<T>(q0: seq<T>, ops: seq<Op<T>>, op: Op<T>, cap: nat)
    ensures Run(q0, ops + [op], cap) == Apply(Run(q0, ops, cap), op, cap)
  {
    assert (ops + [op])[..|ops|] == ops;
  }

  /** Conservation: pushes are pops that delivered, plus entries queued, plus entries dropped;
      the records delivered are the pushed entries at rising positions, and the positions
      missed on the way are exactly the dropped ones. */
  ghost predicate OneFateEach<T>(h: Hist<T>, pushed: seq<T>) {
    var gone := |h.popped| + |h.dropped|;
    && |pushed| == |Records(h.results)| + |h.q| + |h.dropped|
    && gone <= |pushed| && h.q == pushed[gone..]
    && Fates(gone, h.popped, h.dropped)
    && Delivers(Records(h.results), pushed, h.popped)
  }

  lemma InvMeansOneFate<T>(h: Hist<T>, cap: nat)
    requires Inv(h, cap)
    ensures OneFateEach(h, h.pushed)
  {
  }

  lemma {:induction false} EveryEntryHasOneFate<T>(q0: seq<T>, ops: seq<Op<T>>, cap: nat)
    requires 0 < cap && |q0| <= cap
    ensures OneFateEach(Run(q0, ops, cap), q0 + Offered(ops))
  {
    NothingOfferedIsForgotten(q0, ops, cap);
    RunKeepsInv(q0, ops, cap);
    InvMeansOneFate(Run(q0, ops, cap), cap);
  }

  /** Between two consecutive deliveries only dropped entries are passed over. */
  lemma SkippedWereDropped(n: nat, popped: seq<int>, dropped: seq<int>, i: nat, k: int)
    requires Fates(n, popped, dropped) && i + 1 < |popped| && popped[i] < k < popped[i + 1]
    ensures k in dropped
  {
    assert forall j :: 0 <= j < |popped| ==> popped[j] <= popped[i] || popped[j] >= popped[i + 1];
  }
}
