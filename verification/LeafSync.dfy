/**
 The client's leaf cache: rewinding, chunked and concurrent fetching, and the gap check.

 The reference is the list of all deposits of the pool, in order. A cache is true when it holds
 exactly the deposits up to its last block.
 */
module LeafSync {
  import opened Common

  datatype Deposit = Deposit(commitment: Word, block: int)

  /** Every deposit of the pool; the position is the leaf index. */
  type Chain = seq<Deposit>

  datatype Log = Log(leafIndex: nat, commitment: Word, block: int)

  datatype LeafCache = LeafCache(lastBlock: int, leaves: seq<Word>, leafBlocks: Option<seq<int>>)

  ghost predicate InOrder(chain: Chain) {
    forall i, j | 0 <= i < j < |chain| :: chain[i].block <= chain[j].block
  }

  function LogAt(chain: Chain, i: nat): Log
    requires i < |chain|
  {
    Log(i, chain[i].commitment, chain[i].block)
  }

  function Leaves(chain: Chain): (leaves: seq<Word>)
    ensures |leaves| == |chain|
    ensures forall i | 0 <= i < |chain| :: leaves[i] == chain[i].commitment
  {
    if chain == [] then [] else Leaves(chain[..|chain| - 1]) + [chain[|chain| - 1].commitment]
  }

  function Blocks(chain: Chain): (blocks: seq<int>)
    ensures |blocks| == |chain|
    ensures forall i | 0 <= i < |chain| :: blocks[i] == chain[i].block
  {
    if chain == [] then [] else Blocks(chain[..|chain| - 1]) + [chain[|chain| - 1].block]
  }

  /** How many deposits there are up to a block. */
  function UpTo(chain: Chain, block: int): (n: nat)
    ensures n <= |chain|
    ensures InOrder(chain) ==> forall i | 0 <= i < |chain| :: i < n <==> chain[i].block <= block
  {
    if chain == [] then 0
    else if chain[|chain| - 1].block <= block then |chain|
    else
      assert InOrder(chain) ==> InOrder(chain[..|chain| - 1]);
      UpTo(chain[..|chain| - 1], block)
  }

  /** The cache a full scan up to a block builds. */
  function FullScan(chain: Chain, block: int): LeafCache {
    var deposits := chain[..UpTo(chain, block)];
    LeafCache(block, Leaves(deposits), Some(Blocks(deposits)))
  }

  /** A cache that never had leaves may come without per-leaf blocks. */
  ghost predicate TrueCache(chain: Chain, c: LeafCache) {
    && c.leaves == FullScan(chain, c.lastBlock).leaves
    && (c.leafBlocks == FullScan(chain, c.lastBlock).leafBlocks || (c.leafBlocks.None? && c.leaves == []))
  }

  // ------------------------------------------------------------ rewinding

  /** How many leading leaves were deposited by `head`. */
  function Kept(blocks: seq<int>, head: int): (keep: nat)
    ensures keep <= |blocks|
  {
    if blocks == [] || blocks[0] > head then 0 else 1 + Kept(blocks[1..], head)
  }

  /** `slice(0, n)`, which stops at the end of the list. */
  function FirstOf(leaves: seq<Word>, n: nat): (first: seq<Word>)
    ensures first <= leaves && |first| <= n && (|first| < n ==> first == leaves)
  {
    if n <= |leaves| then leaves[..n] else leaves
  }

  /** A cache ahead of `head` is cut back; without per-leaf blocks that is impossible. */
  function Rewound(c: LeafCache, head: int): Result<LeafCache> {
    if c.lastBlock <= head then Ok(c)
    else if c.leafBlocks.None? then Err
    else
      var keep := Kept(c.leafBlocks.value, head);
      Ok(LeafCache(head, FirstOf(c.leaves, keep), Some(c.leafBlocks.value[..keep])))
  }

  method Rewind(c: LeafCache, head: int) returns (cut: Result<LeafCache>)
    ensures cut == Rewound(c, head)
  {
    if c.lastBlock <= head {
      return Ok(c);
    }
    if c.leafBlocks.None? {
      return Err;
    }
    var blocks := c.leafBlocks.value;
    var keep := 0;
    while keep < |blocks| && blocks[keep] <= head
      invariant 0 <= keep <= |blocks|
      invariant Kept(blocks, head) == keep + Kept(blocks[keep..], head)
    {
      keep := keep + 1;
    }
    return Ok(LeafCache(head, FirstOf(c.leaves, keep), Some(blocks[..keep])));
  }

  lemma {:induction false} KeptIsBoundary(blocks: seq<int>, head: int)
    ensures forall i | 0 <= i < Kept(blocks, head) :: blocks[i] <= head
    ensures Kept(blocks, head) < |blocks| ==> blocks[Kept(blocks, head)] > head
  {
    if blocks != [] && blocks[0] <= head {
      KeptIsBoundary(blocks[1..], head);
    }
  }

  /** Among the first `known` deposits, those kept are the ones up to `head`. */
  lemma KeptIsUpTo(chain: Chain, known: nat, head: int)
    requires InOrder(chain) && UpTo(chain, head) <= known <= |chain|
    ensures Kept(Blocks(chain[..known]), head) == UpTo(chain, head)
  {
    var blocks := Blocks(chain[..known]);
    var keep, n := Kept(blocks, head), UpTo(chain, head);
    KeptIsBoundary(blocks, head);
    assert keep < |blocks| ==> blocks[keep] == chain[keep].block;
    assert n < |blocks| ==> blocks[n] == chain[n].block;
  }

  lemma UpToMonotone(chain: Chain, a: int, b: int)
    requires InOrder(chain) && a <= b
    ensures UpTo(chain, a) <= UpTo(chain, b)
  {
    var n := UpTo(chain, a);
    assert n > 0 ==> chain[n - 1].block <= a;
  }

  /** Rewinding a true cache gives the true cache of `head`, and fails only without per-leaf blocks. */
  lemma RewoundIsTrue(chain: Chain, c: LeafCache, head: int)
    requires InOrder(chain) && TrueCache(chain, c)
    ensures Rewound(c, head).Err? <==> c.lastBlock > head && c.leafBlocks.None?
    ensures Rewound(c, head).Ok? ==> TrueCache(chain, Rewound(c, head).value)
    ensures Rewound(c, head).Ok? ==> Rewound(c, head).value.lastBlock <= head
  {
    hide UpTo, Kept, InOrder;
    if c.lastBlock > head && c.leafBlocks.Some? {
      var known, n := UpTo(chain, c.lastBlock), UpTo(chain, head);
      UpToMonotone(chain, head, c.lastBlock);
      KeptIsUpTo(chain, known, head);
      assert Leaves(chain[..known])[..n] == Leaves(chain[..n]);
      assert Blocks(chain[..known])[..n] == Blocks(chain[..n]);
    }
  }

  // ------------------------------------------------------------ ranges

  datatype BlockRange = BlockRange(from: int, to: int)

  predicate InRange(r: BlockRange, block: int) {
    r.from <= block <= r.to
  }

  function RangesFrom(from: int, head: int, chunk: nat): seq<BlockRange>
    requires chunk > 0
    decreases head - from
  {
    if from > head then [] else
      [BlockRange(from, if from + chunk - 1 > head then head else from + chunk - 1)] + RangesFrom(from + chunk, head, chunk)
  }

  method MakeRanges(from: int, head: int, chunk: nat) returns (ranges: seq<BlockRange>)
    requires chunk > 0
    ensures ranges == RangesFrom(from, head, chunk)
  {
    ranges := [];
    var at := from;
    while at <= head
      invariant RangesFrom(from, head, chunk) == ranges + RangesFrom(at, head, chunk)
      decreases head - at
    {
      ranges := ranges + [BlockRange(at, if at + chunk - 1 > head then head else at + chunk - 1)];
      at := at + chunk;
    }
  }

  /** The position of the range a block falls in. */
  function RangeOf(from: int, chunk: nat, block: int): nat
    requires chunk > 0
    decreases block - from
  {
    if block < from + chunk then 0 else 1 + RangeOf(from + chunk, chunk, block)
  }

  /** The ranges cut `from..head` into disjoint pieces: a block is in one range, the one that `RangeOf` names. */
  lemma {:induction false} RangesPartition(from: int, head: int, chunk: nat, i: nat, block: int)
    requires chunk > 0
    ensures var ranges := RangesFrom(from, head, chunk);
      && (i < |ranges| && InRange(ranges[i], block) ==> from <= block <= head && i == RangeOf(from, chunk, block))
      && (from <= block <= head ==>
            RangeOf(from, chunk, block) < |ranges| && InRange(ranges[RangeOf(from, chunk, block)], block))
    decreases head - from
  {
    if from <= head {
      RangesPartition(from + chunk, head, chunk, if i > 0 then i - 1 else 0, block);
    }
  }

  /** Every range but the last spans exactly `chunk` blocks, the last at most that, and they follow one another. */
  lemma {:induction false} RangesAreChunks(from: int, head: int, chunk: nat, i: nat)
    requires chunk > 0 && i < |RangesFrom(from, head, chunk)|
    ensures var ranges := RangesFrom(from, head, chunk);
      && ranges[0].from == from && ranges[|ranges| - 1].to == head
      && 0 <= ranges[i].to - ranges[i].from < chunk
      && (i < |ranges| - 1 ==> ranges[i].to - ranges[i].from == chunk - 1 && ranges[i + 1].from == ranges[i].to + 1)
    decreases head - from
  {
    var ranges, rest := RangesFrom(from, head, chunk), RangesFrom(from + chunk, head, chunk);
    assert ranges == [BlockRange(from, if from + chunk - 1 > head then head else from + chunk - 1)] + rest;
    if from + chunk > head {
      assert rest == [];
    } else {
      assert rest != [];
      RangesAreChunks(from + chunk, head, chunk, if i > 0 then i - 1 else 0);
      assert ranges[|ranges| - 1] == rest[|rest| - 1] && ranges[1] == rest[0];
      assert i > 0 ==> ranges[i] == rest[i - 1];
    }
  }

  // ------------------------------------------------------------ the workers

  /** Ranges are taken in order; answers come back in any order, at most `workers` at a time. */
  datatype Fetch = Fetch(next: nat, inFlight: set<nat>, done: set<nat>, events: seq<Log>)

  datatype FetchStep = Take | Deliver(range: nat, logs: seq<Log>)

  /** Only true deposits of the range, none twice. */
  ghost predicate Truthful(chain: Chain, r: BlockRange, logs: seq<Log>) {
    && (forall l | l in logs :: l.leafIndex < |chain| && l == LogAt(chain, l.leafIndex) && InRange(r, l.block))
    && DistinctIndices(logs)
  }

  /** All of them. */
  ghost predicate Complete(chain: Chain, r: BlockRange, logs: seq<Log>) {
    forall i | 0 <= i < |chain| && InRange(r, chain[i].block) :: LogAt(chain, i) in logs
  }

  ghost predicate DistinctIndices(logs: seq<Log>) {
    forall i, j | 0 <= i < j < |logs| :: logs[i].leafIndex != logs[j].leafIndex
  }

  ghost predicate StepEnabled(chain: Chain, ranges: seq<BlockRange>, workers: nat, exact: bool, f: Fetch, step: FetchStep) {
    match step
    case Take => f.next < |ranges| && |f.inFlight| < workers
    case Deliver(i, logs) =>
      i in f.inFlight && i < |ranges| && Truthful(chain, ranges[i], logs) && (exact ==> Complete(chain, ranges[i], logs))
  }

  function ApplyStep(f: Fetch, step: FetchStep): Fetch {
    match step
    case Take => f.(next := f.next + 1, inFlight := f.inFlight + {f.next})
    case Deliver(i, logs) => f.(inFlight := f.inFlight - {i}, done := f.done + {i}, events := f.events + logs)
  }

  ghost predicate ValidFetch(chain: Chain, ranges: seq<BlockRange>, workers: nat, exact: bool, f: Fetch, steps: seq<FetchStep>)
    decreases |steps|
  {
    steps == [] ||
    (StepEnabled(chain, ranges, workers, exact, f, steps[0]) &&
     ValidFetch(chain, ranges, workers, exact, ApplyStep(f, steps[0]), steps[1..]))
  }

  function AfterFetch(f: Fetch, steps: seq<FetchStep>): Fetch
    decreases |steps|
  {
    if steps == [] then f else AfterFetch(ApplyStep(f, steps[0]), steps[1..])
  }

  const START := Fetch(0, {}, {}, [])

  /** Every worker has found the list of ranges empty. */
  predicate Finished(ranges: seq<BlockRange>, f: Fetch) {
    f.next >= |ranges| && f.inFlight == {}
  }

  /** A true deposit that some delivered range covers. */
  ghost predicate Delivered(chain: Chain, ranges: seq<BlockRange>, done: set<nat>, i: nat)
    requires i < |chain|
  {
    exists k :: k in done && k < |ranges| && InRange(ranges[k], chain[i].block)
  }

  /** What has been collected: true deposits of delivered ranges, none twice, and all of them if the node is exact. */
  ghost predicate Collected(chain: Chain, ranges: seq<BlockRange>, exact: bool, f: Fetch) {
    && (forall k :: k in f.inFlight + f.done <==> 0 <= k < f.next)
    && f.inFlight !! f.done
    && DistinctIndices(f.events)
    && (forall l | l in f.events ::
          l.leafIndex < |chain| && l == LogAt(chain, l.leafIndex) && Delivered(chain, ranges, f.done, l.leafIndex))
    && (exact ==> forall i | 0 <= i < |chain| && Delivered(chain, ranges, f.done, i) :: LogAt(chain, i) in f.events)
  }

  /** No block is in two ranges. */
  ghost predicate Disjoint(ranges: seq<BlockRange>) {
    forall i, j, block | 0 <= i < |ranges| && 0 <= j < |ranges| && InRange(ranges[i], block) && InRange(ranges[j], block) :: i == j
  }

  lemma DeliverCollects(chain: Chain, ranges: seq<BlockRange>, workers: nat, exact: bool, f: Fetch, i: nat, logs: seq<Log>)
    requires Disjoint(ranges) && Collected(chain, ranges, exact, f)
    requires StepEnabled(chain, ranges, workers, exact, f, Deliver(i, logs))
    ensures Collected(chain, ranges, exact, ApplyStep(f, Deliver(i, logs)))
  {
    var g := ApplyStep(f, Deliver(i, logs));
    forall l | l in g.events
      ensures l.leafIndex < |chain| && l == LogAt(chain, l.leafIndex) && Delivered(chain, ranges, g.done, l.leafIndex)
    {
      if l in logs {
        assert i in g.done && InRange(ranges[i], chain[l.leafIndex].block);
      } else {
        assert l in f.events && Delivered(chain, ranges, f.done, l.leafIndex);
        var k :| k in f.done && k < |ranges| && InRange(ranges[k], chain[l.leafIndex].block);
        assert k in g.done;
      }
    }
    forall a, b | 0 <= a < b < |g.events|
      ensures g.events[a].leafIndex != g.events[b].leafIndex
    {
      if a < |f.events| <= b {
        var was, got := f.events[a], logs[b - |f.events|];
        assert was in f.events && got in logs;
        var k :| k in f.done && k < |ranges| && InRange(ranges[k], chain[was.leafIndex].block);
        assert k != i;
      }
    }
    if exact {
      forall j | 0 <= j < |chain| && Delivered(chain, ranges, g.done, j)
        ensures LogAt(chain, j) in g.events
      {
        var k :| k in g.done && k < |ranges| && InRange(ranges[k], chain[j].block);
        if k in f.done {
          assert Delivered(chain, ranges, f.done, j);
        }
      }
    }
  }

  lemma TakeCollects(chain: Chain, ranges: seq<BlockRange>, exact: bool, f: Fetch)
    requires Collected(chain, ranges, exact, f)
    ensures Collected(chain, ranges, exact, ApplyStep(f, Take))
  {
    assert f.next !in f.inFlight + f.done;
  }

  lemma {:induction false} FetchCollects(chain: Chain, ranges: seq<BlockRange>, workers: nat, exact: bool, f: Fetch, steps: seq<FetchStep>)
    requires Disjoint(ranges) && Collected(chain, ranges, exact, f)
    requires ValidFetch(chain, ranges, workers, exact, f, steps)
    ensures Collected(chain, ranges, exact, AfterFetch(f, steps))
    decreases |steps|
  {
    hide Collected, Disjoint;
    if steps == [] {
    } else {
      match steps[0] {
        case Take => TakeCollects(chain, ranges, exact, f);
        case Deliver(i, logs) => DeliverCollects(chain, ranges, workers, exact, f, i, logs);
      }
      FetchCollects(chain, ranges, workers, exact, ApplyStep(f, steps[0]), steps[1..]);
    }
  }

  /** Answers come in any order: every range in flight can be delivered next, and ranges are taken while a worker is free. */
  lemma EverySchedule(chain: Chain, ranges: seq<BlockRange>, workers: nat, f: Fetch, i: nat, logs: seq<Log>)
    ensures StepEnabled(chain, ranges, workers, false, f, Take) <==> f.next < |ranges| && |f.inFlight| < workers
    ensures i in f.inFlight && i < |ranges| && Truthful(chain, ranges[i], logs)
      ==> StepEnabled(chain, ranges, workers, false, f, Deliver(i, logs))
  {
  }

  /** The logs of one range, as an exact node answers. */
  function LogsIn(chain: Chain, r: BlockRange, n: nat): (logs: seq<Log>)
    requires n <= |chain|
    ensures forall l | l in logs :: l.leafIndex < n && l == LogAt(chain, l.leafIndex) && InRange(r, l.block)
    ensures forall i | 0 <= i < n && InRange(r, chain[i].block) :: LogAt(chain, i) in logs
    ensures forall i, j | 0 <= i < j < |logs| :: logs[i].leafIndex != logs[j].leafIndex
  {
    if n == 0 then [] else
      var before := LogsIn(chain, r, n - 1);
      if InRange(r, chain[n - 1].block)
      then
        assert forall i | 0 <= i < |before| :: before[i] in before;
        before + [LogAt(chain, n - 1)]
      else before
  }

  /** A single worker against an exact node, taking the ranges from `at` on one by one. */
  function OneByOne(chain: Chain, ranges: seq<BlockRange>, at: nat): seq<FetchStep>
    requires at <= |ranges|
    decreases |ranges| - at
  {
    if at == |ranges| then []
    else [Take, Deliver(at, LogsIn(chain, ranges[at], |chain|))] + OneByOne(chain, ranges, at + 1)
  }

  /** Some schedule finishes, with any number of workers but none. */
  lemma {:induction false} SomeScheduleFinishes(chain: Chain, ranges: seq<BlockRange>, workers: nat, f: Fetch)
    requires workers > 0 && f.next <= |ranges| && f.inFlight == {}
    ensures var steps := OneByOne(chain, ranges, f.next);
      ValidFetch(chain, ranges, workers, true, f, steps) && Finished(ranges, AfterFetch(f, steps))
    decreases |ranges| - f.next
  {
    if f.next == |ranges| {
    } else {
      var logs := LogsIn(chain, ranges[f.next], |chain|);
      var taken := ApplyStep(f, Take);
      var delivered := ApplyStep(taken, Deliver(f.next, logs));
      var rest := OneByOne(chain, ranges, f.next + 1);
      assert StepEnabled(chain, ranges, workers, true, f, Take);
      assert StepEnabled(chain, ranges, workers, true, taken, Deliver(f.next, logs));
      assert delivered.inFlight == {};
      SomeScheduleFinishes(chain, ranges, workers, delivered);
      FetchTwo(chain, ranges, workers, f, Take, Deliver(f.next, logs), rest);
    }
  }

  lemma FetchTwo(chain: Chain, ranges: seq<BlockRange>, workers: nat, f: Fetch, a: FetchStep, b: FetchStep, rest: seq<FetchStep>)
    requires StepEnabled(chain, ranges, workers, true, f, a)
    requires StepEnabled(chain, ranges, workers, true, ApplyStep(f, a), b)
    requires ValidFetch(chain, ranges, workers, true, ApplyStep(ApplyStep(f, a), b), rest)
    ensures ValidFetch(chain, ranges, workers, true, f, [a, b] + rest)
    ensures AfterFetch(f, [a, b] + rest) == AfterFetch(ApplyStep(ApplyStep(f, a), b), rest)
  {
    hide StepEnabled, ApplyStep;
    var steps := [a, b] + rest;
    assert steps[1..] == [b] + rest && steps[1..][1..] == rest;
  }

  // ------------------------------------------------------------ sorting and appending

  ghost predicate Increasing(logs: seq<Log>) {
    forall i, j | 0 <= i < j < |logs| :: logs[i].leafIndex < logs[j].leafIndex
  }

  function InsertSorted(l: Log, sorted: seq<Log>): seq<Log> {
    if sorted == [] || l.leafIndex <= sorted[0].leafIndex then [l] + sorted
    else [sorted[0]] + InsertSorted(l, sorted[1..])
  }

  /** `sort` by leaf index. */
  function SortByIndex(logs: seq<Log>): seq<Log> {
    if logs == [] then [] else InsertSorted(logs[0], SortByIndex(logs[1..]))
  }

  /** Sorting moves entries and neither drops nor repeats one, whatever their indices. */
  lemma {:induction false} SortIsPermutation(logs: seq<Log>)
    ensures multiset(SortByIndex(logs)) == multiset(logs)
  {
    if logs == [] {
    } else {
      SortIsPermutation(logs[1..]);
      InsertAddsOne(logs[0], SortByIndex(logs[1..]));
      assert logs == [logs[0]] + logs[1..];
    }
  }

  lemma {:induction false} InsertAddsOne(l: Log, sorted: seq<Log>)
    ensures multiset(InsertSorted(l, sorted)) == multiset(sorted) + multiset{l}
  {
    if sorted == [] || l.leafIndex <= sorted[0].leafIndex {
    } else {
      InsertAddsOne(l, sorted[1..]);
      assert sorted == [sorted[0]] + sorted[1..];
    }
  }

  lemma {:induction false} InsertIsSorted(l: Log, sorted: seq<Log>)
    requires Increasing(sorted) && forall m :: m in sorted ==> m.leafIndex != l.leafIndex
    ensures Increasing(InsertSorted(l, sorted))
    ensures forall m :: m in InsertSorted(l, sorted) <==> m == l || m in sorted
  {
    if sorted != [] && l.leafIndex > sorted[0].leafIndex {
      var rest := InsertSorted(l, sorted[1..]);
      assert forall m :: m in sorted[1..] ==> m in sorted;
      InsertIsSorted(l, sorted[1..]);
      forall i | 0 <= i < |rest|
        ensures sorted[0].leafIndex < rest[i].leafIndex
      {
        assert rest[i] in rest;
      }
      assert forall m :: m in sorted <==> m == sorted[0] || m in sorted[1..];
    }
  }

  lemma {:induction false} SortIsSorted(logs: seq<Log>)
    requires DistinctIndices(logs)
    ensures Increasing(SortByIndex(logs))
    ensures forall m :: m in SortByIndex(logs) <==> m in logs
  {
    if logs == [] {
    } else {
      SortIsSorted(logs[1..]);
      assert forall m :: m in logs <==> m == logs[0] || m in logs[1..];
      forall m | m in SortByIndex(logs[1..])
        ensures m.leafIndex != logs[0].leafIndex
      {
        var i :| 0 <= i < |logs[1..]| && logs[1..][i] == m;
        assert logs[i + 1] == m;
      }
      InsertIsSorted(logs[0], SortByIndex(logs[1..]));
    }
  }

  /** Appends events whose index is the next one; anything else is a gap. */
  function Append(leaves: seq<Word>, blocks: seq<int>, events: seq<Log>): Result<(seq<Word>, seq<int>)>
    decreases |events|
  {
    if events == [] then Ok((leaves, blocks))
    else if events[0].leafIndex != |leaves| then Err
    else Append(leaves + [events[0].commitment], blocks + [events[0].block], events[1..])
  }

  method AppendEvents(c: LeafCache, events: seq<Log>, head: int) returns (synced: Result<LeafCache>)
    ensures synced == Synced(c, events, head)
  {
    var leaves := c.leaves;
    var blocks := if c.leafBlocks.Some? then c.leafBlocks.value else seq(|c.leaves|, _ => c.lastBlock);
    ghost var start := (leaves, blocks);
    for i := 0 to |events|
      invariant Append(start.0, start.1, events) == Append(leaves, blocks, events[i..])
    {
      assert events[i..][0] == events[i] && events[i..][1..] == events[i + 1..];
      if events[i].leafIndex != |leaves| {
        return Err;
      }
      leaves := leaves + [events[i].commitment];
      blocks := blocks + [events[i].block];
    }
    return Ok(LeafCache(head, leaves, Some(blocks)));
  }

  /** The cache after the sorted events were appended. */
  function Synced(c: LeafCache, events: seq<Log>, head: int): Result<LeafCache> {
    var blocks := if c.leafBlocks.Some? then c.leafBlocks.value else seq(|c.leaves|, _ => c.lastBlock);
    match Append(c.leaves, blocks, events)
    case Err => Err
    case Ok((leaves, all)) => Ok(LeafCache(head, leaves, Some(all)))
  }

  lemma LeavesOfNext(chain: Chain, n: nat)
    requires n < |chain|
    ensures Leaves(chain[..n + 1]) == Leaves(chain[..n]) + [chain[n].commitment]
    ensures Blocks(chain[..n + 1]) == Blocks(chain[..n]) + [chain[n].block]
  {
    assert chain[..n + 1][..n] == chain[..n];
  }

  /** Appending succeeds exactly when every event has the next index, and adds the events as they are. */
  lemma {:induction false} AppendIsExact(leaves: seq<Word>, blocks: seq<int>, events: seq<Log>)
    ensures Append(leaves, blocks, events).Ok? <==> forall i | 0 <= i < |events| :: events[i].leafIndex == |leaves| + i
    ensures Append(leaves, blocks, events).Ok? ==>
      && Append(leaves, blocks, events).value.0 == leaves + seq(|events|, i requires 0 <= i < |events| => events[i].commitment)
      && Append(leaves, blocks, events).value.1 == blocks + seq(|events|, i requires 0 <= i < |events| => events[i].block)
    decreases |events|
  {
    if events == [] {
    } else {
      AppendIsExact(leaves + [events[0].commitment], blocks + [events[0].block], events[1..]);
      assert forall i | 1 <= i < |events| :: events[i] == events[1..][i - 1];
    }
  }

  /** A cache without per-leaf blocks gets its last block for every leaf it had. */
  lemma SyncedFillsBlocks(c: LeafCache, events: seq<Log>, head: int)
    requires Synced(c, events, head).Ok?
    ensures var synced := Synced(c, events, head).value;
      && synced.lastBlock == head && synced.leafBlocks.Some?
      && |synced.leaves| == |c.leaves| + |events| && synced.leaves[..|c.leaves|] == c.leaves
      && (c.leafBlocks.None? ==>
            && |synced.leafBlocks.value| == |synced.leaves|
            && forall i | 0 <= i < |c.leaves| :: synced.leafBlocks.value[i] == c.lastBlock)
      && (c.leafBlocks.Some? ==>
            && |synced.leafBlocks.value| == |c.leafBlocks.value| + |events|
            && synced.leafBlocks.value[..|c.leafBlocks.value|] == c.leafBlocks.value)
  {
    var blocks := if c.leafBlocks.Some? then c.leafBlocks.value else seq(|c.leaves|, _ => c.lastBlock);
    AppendIsExact(c.leaves, blocks, events);
  }

  /** Nothing is reported as a gap only if the indices follow one another. */
  lemma {:induction false} AppendIsConsecutive(leaves: seq<Word>, blocks: seq<int>, events: seq<Log>)
    requires Append(leaves, blocks, events).Ok?
    ensures forall i | 0 <= i < |events| :: events[i].leafIndex == |leaves| + i
    decreases |events|
  {
    if events == [] {
    } else {
      AppendIsConsecutive(leaves + [events[0].commitment], blocks + [events[0].block], events[1..]);
      assert forall i | 1 <= i < |events| :: events[i] == events[1..][i - 1];
    }
  }

  /** True events on top of a prefix of the deposits: a longer prefix, or a gap is reported. */
  lemma {:induction false} AppendIsPrefix(chain: Chain, n: nat, events: seq<Log>)
    requires n <= |chain|
    requires forall e | e in events :: e.leafIndex < |chain| && e == LogAt(chain, e.leafIndex)
    ensures var r := Append(Leaves(chain[..n]), Blocks(chain[..n]), events);
      r.Ok? ==>
        && n + |events| <= |chain|
        && r.value == (Leaves(chain[..n + |events|]), Blocks(chain[..n + |events|]))
    decreases |events|
  {
    if events != [] && events[0].leafIndex == n {
      assert events[0] in events;
      LeavesOfNext(chain, n);
      assert forall e | e in events[1..] :: e in events;
      AppendIsPrefix(chain, n + 1, events[1..]);
    }
  }

  /** The sorted events of all deposits from `n` up to `m` append without a gap. */
  lemma {:induction false} AppendIsComplete(chain: Chain, n: nat, m: nat, events: seq<Log>)
    requires n <= m <= |chain| && Increasing(events)
    requires forall e :: e in events <==> n <= e.leafIndex < m && e == LogAt(chain, e.leafIndex)
    ensures Append(Leaves(chain[..n]), Blocks(chain[..n]), events) == Ok((Leaves(chain[..m]), Blocks(chain[..m])))
    decreases |events|
  {
    assert events != [] ==> events[0] in events;
    if n < m {
      var first := LogAt(chain, n);
      assert first in events;
      var k :| 0 <= k < |events| && events[k] == first;
      assert k == 0;
      LeavesOfNext(chain, n);
      forall e
        ensures e in events[1..] <==> n + 1 <= e.leafIndex < m && e == LogAt(chain, e.leafIndex)
      {
        if e in events[1..] {
          var j :| 0 <= j < |events[1..]| && events[1..][j] == e;
          assert events[j + 1] == e && e in events;
        }
        if n + 1 <= e.leafIndex < m && e == LogAt(chain, e.leafIndex) {
          assert e in events;
        }
      }
      AppendIsComplete(chain, n + 1, m, events[1..]);
    }
  }

  // ------------------------------------------------------------ syncLeaves

  /** The whole procedure: rewind, fetch in some schedule, sort, append. */
  function Sync(c: LeafCache, head: int, steps: seq<FetchStep>): Result<LeafCache> {
    match Rewound(c, head)
    case Err => Err
    case Ok(base) => Synced(base, SortByIndex(AfterFetch(START, steps).events), head)
  }

  ghost predicate ValidSync(chain: Chain, c: LeafCache, head: int, chunk: nat, workers: nat, exact: bool, steps: seq<FetchStep>)
    requires chunk > 0
  {
    Rewound(c, head).Ok? ==>
      var ranges := RangesFrom(Rewound(c, head).value.lastBlock + 1, head, chunk);
      && ValidFetch(chain, ranges, workers, exact, START, steps)
      && Finished(ranges, AfterFetch(START, steps))
  }

  lemma RangesAreDisjoint(from: int, head: int, chunk: nat)
    requires chunk > 0
    ensures Disjoint(RangesFrom(from, head, chunk))
  {
    var ranges := RangesFrom(from, head, chunk);
    forall i, j, block | 0 <= i < |ranges| && 0 <= j < |ranges| && InRange(ranges[i], block) && InRange(ranges[j], block)
      ensures i == j
    {
      RangesPartition(from, head, chunk, i, block);
      RangesPartition(from, head, chunk, j, block);
    }
  }

  /** When every range was delivered, the delivered deposits are those from the cache's block up to head. */
  lemma AllDelivered(chain: Chain, from: int, head: int, chunk: nat, f: Fetch, i: nat)
    requires chunk > 0 && i < |chain|
    requires var ranges := RangesFrom(from, head, chunk);
      Finished(ranges, f) && forall k :: k in f.inFlight + f.done <==> 0 <= k < f.next
    ensures Delivered(chain, RangesFrom(from, head, chunk), f.done, i) <==> from <= chain[i].block <= head
  {
    var ranges, block := RangesFrom(from, head, chunk), chain[i].block;
    if k :| k in f.done && k < |ranges| && InRange(ranges[k], block) {
      RangesPartition(from, head, chunk, k, block);
    }
    RangesPartition(from, head, chunk, 0, block);
    if from <= block <= head {
      assert RangeOf(from, chunk, block) in f.inFlight + f.done;
    }
  }

  /**
   With a node that answers each range exactly, syncing any true cache, behind `head` or ahead of
   it, gives what a full scan gives, for every chunk size and every worker schedule. It fails only
   when a rewind would need per-leaf blocks that are not there.
   */
  lemma SyncIsFullScan(chain: Chain, c: LeafCache, head: int, chunk: nat, workers: nat, steps: seq<FetchStep>)
    requires InOrder(chain) && TrueCache(chain, c) && chunk > 0
    requires ValidSync(chain, c, head, chunk, workers, true, steps)
    ensures Sync(c, head, steps) ==
      if c.lastBlock > head && c.leafBlocks.None? then Err else Ok(FullScan(chain, head))
  {
    RewoundIsTrue(chain, c, head);
    if Rewound(c, head).Ok? {
      var base := Rewound(c, head).value;
      var from := base.lastBlock + 1;
      var ranges := RangesFrom(from, head, chunk);
      var f := AfterFetch(START, steps);
      RangesAreDisjoint(from, head, chunk);
      FetchCollects(chain, ranges, workers, true, START, steps);
      SortIsSorted(f.events);
      var n, m := UpTo(chain, base.lastBlock), UpTo(chain, head);
      var sorted := SortByIndex(f.events);
      forall e
        ensures e in sorted <==> n <= e.leafIndex < m && e == LogAt(chain, e.leafIndex)
      {
        if e in f.events {
          AllDelivered(chain, from, head, chunk, f, e.leafIndex);
        }
        if n <= e.leafIndex < m && e == LogAt(chain, e.leafIndex) {
          AllDelivered(chain, from, head, chunk, f, e.leafIndex);
        }
      }
      AppendIsComplete(chain, n, m, sorted);
      assert base.leafBlocks.None? ==> seq(|base.leaves|, _ => base.lastBlock) == Blocks(chain[..n]);
    }
  }

  /** The leaves are the first deposits, whatever the cache's last block says. */
  ghost predicate PrefixCache(chain: Chain, c: LeafCache) {
    && |c.leaves| <= |chain|
    && c.leaves == Leaves(chain[..|c.leaves|])
    && (c.leafBlocks == Some(Blocks(chain[..|c.leaves|])) || (c.leafBlocks.None? && c.leaves == []))
  }

  lemma RewoundIsPrefix(chain: Chain, c: LeafCache, head: int)
    requires PrefixCache(chain, c) && Rewound(c, head).Ok?
    ensures PrefixCache(chain, Rewound(c, head).value)
  {
    hide Kept;
    var n := |Rewound(c, head).value.leaves|;
    assert Leaves(chain[..|c.leaves|])[..n] == Leaves(chain[..n]);
    assert Blocks(chain[..|c.leaves|])[..n] == Blocks(chain[..n]);
  }

  /** And a true cache can always be synced: with any worker at all there is a schedule that completes the scan. */
  lemma TrueCacheCanSync(chain: Chain, c: LeafCache, head: int, chunk: nat, workers: nat) returns (steps: seq<FetchStep>)
    requires InOrder(chain) && TrueCache(chain, c) && chunk > 0 && workers > 0
    requires c.lastBlock <= head || c.leafBlocks.Some?
    ensures ValidSync(chain, c, head, chunk, workers, true, steps)
    ensures Sync(c, head, steps) == Ok(FullScan(chain, head))
  {
    RewoundIsTrue(chain, c, head);
    var ranges := RangesFrom(Rewound(c, head).value.lastBlock + 1, head, chunk);
    steps := OneByOne(chain, ranges, 0);
    SomeScheduleFinishes(chain, ranges, workers, START);
    hide ValidFetch, AfterFetch, RangesFrom, Sync, FullScan;
    SyncIsFullScan(chain, c, head, chunk, workers, steps);
  }

  /**
   With a node that may leave logs out but invents none, syncing a cache that is a prefix of the
   deposits either fails or gives a prefix of the deposits: never a hole, never another order.
   */
  lemma SyncIsPrefixOrFails(chain: Chain, c: LeafCache, head: int, chunk: nat, workers: nat, steps: seq<FetchStep>)
    requires chunk > 0 && PrefixCache(chain, c)
    requires ValidSync(chain, c, head, chunk, workers, false, steps)
    ensures Sync(c, head, steps).Ok? ==> PrefixCache(chain, Sync(c, head, steps).value)
  {
    hide Kept, ValidFetch, Append, SortByIndex, AfterFetch, RangesFrom;
    if Rewound(c, head).Ok? {
      RewoundIsPrefix(chain, c, head);
      var base := Rewound(c, head).value;
      var n, ranges := |base.leaves|, RangesFrom(base.lastBlock + 1, head, chunk);
      var events := AfterFetch(START, steps).events;
      RangesAreDisjoint(base.lastBlock + 1, head, chunk);
      FetchCollects(chain, ranges, workers, false, START, steps);
      SortIsSorted(events);
      AppendIsPrefix(chain, n, SortByIndex(events));
      assert base.leafBlocks.None? ==> seq(|base.leaves|, _ => base.lastBlock) == Blocks(chain[..n]);
    }
  }

  // ------------------------------------------------------------ the seed file

  /** The largest block of the entries, at least zero. */
  function LastBlock(entries: seq<Log>): (last: int)
    ensures last >= 0 && forall e | e in entries :: e.block <= last
  {
    if entries == [] then 0 else
      var before := LastBlock(entries[..|entries| - 1]);
      var block := entries[|entries| - 1].block;
      if block > before then block else before
  }

  /** A tornado-cli cache, sorted and gap-checked. */
  method LeafCacheFromTornadoCli(deposits: seq<Log>) returns (cache: Result<LeafCache>)
    ensures cache == Seed(deposits)
  {
    var sorted := SortByIndex(deposits);
    var leaves, blocks, lastBlock := [], [], 0;
    for i := 0 to |sorted|
      invariant Append([], [], sorted) == Append(leaves, blocks, sorted[i..])
      invariant lastBlock == LastBlock(sorted[..i])
    {
      assert sorted[i..][0] == sorted[i] && sorted[i..][1..] == sorted[i + 1..];
      assert sorted[..i + 1][..i] == sorted[..i];
      if sorted[i].leafIndex != |leaves| {
        return Err;
      }
      leaves := leaves + [sorted[i].commitment];
      blocks := blocks + [sorted[i].block];
      if sorted[i].block > lastBlock {
        lastBlock := sorted[i].block;
      }
    }
    assert sorted[..|sorted|] == sorted;
    return Ok(LeafCache(lastBlock, leaves, Some(blocks)));
  }

  /** The cache that `LeafCacheFromTornadoCli` makes of a seed file. */
  function Seed(deposits: seq<Log>): Result<LeafCache> {
    Synced(LeafCache(0, [], Some([])), SortByIndex(deposits), LastBlock(SortByIndex(deposits)))
  }

  /** The deposit after the first `n`, if there is one, is in a later block. */
  predicate NextIsLater(chain: Chain, n: nat, block: int)
    requires n <= |chain|
  {
    n == |chain| || chain[n].block > block
  }

  /** The first `n` deposits are all those up to a block exactly when the next one is later. */
  lemma PrefixEndsAt(chain: Chain, n: nat, block: int)
    requires InOrder(chain) && n <= |chain|
    requires forall i | 0 <= i < n :: chain[i].block <= block
    ensures UpTo(chain, block) == n <==> NextIsLater(chain, n, block)
  {
    assert n > 0 ==> chain[n - 1].block <= block;
    assert n < |chain| ==> (n < UpTo(chain, block) <==> chain[n].block <= block);
  }

  /** The entries are the first `m` deposits, in some order. */
  ghost predicate FirstDeposits(chain: Chain, entries: seq<Log>, m: nat) {
    && m <= |chain|
    && (forall e :: e in entries <==> e.leafIndex < m && e == LogAt(chain, e.leafIndex))
  }

  /** Sorted true entries append from nothing exactly when they are the first deposits. */
  lemma SeedAppends(chain: Chain, sorted: seq<Log>)
    requires Increasing(sorted)
    requires forall e | e in sorted :: e.leafIndex < |chain| && e == LogAt(chain, e.leafIndex)
    ensures Append([], [], sorted).Ok? <==> exists m: nat :: FirstDeposits(chain, sorted, m)
    ensures Append([], [], sorted).Ok? ==>
      && |sorted| <= |chain|
      && Append([], [], sorted).value == (Leaves(chain[..|sorted|]), Blocks(chain[..|sorted|]))
  {
    hide Append, Leaves, Blocks;
    assert Leaves(chain[..0]) == [] && Blocks(chain[..0]) == [];
    AppendIsPrefix(chain, 0, sorted);
    if m: nat :| FirstDeposits(chain, sorted, m) {
      AppendIsComplete(chain, 0, m, sorted);
    }
    if Append([], [], sorted).Ok? {
      AppendIsConsecutive([], [], sorted);
      forall e
        ensures e in sorted <==> e.leafIndex < |sorted| && e == LogAt(chain, e.leafIndex)
      {
        if e.leafIndex < |sorted| {
          assert sorted[e.leafIndex] in sorted;
        }
      }
      assert FirstDeposits(chain, sorted, |sorted|);
    }
  }

  /**
   A seed with true entries, none twice, is accepted exactly when they are the first deposits;
   the cache it gives is true exactly when the seed does not stop inside a block, that is, when the
   first deposit it lacks is in a later block than all it has.
   */
  lemma SeedIsTrueWhenBlocksAreWhole(chain: Chain, deposits: seq<Log>)
    requires DistinctIndices(deposits)
    requires forall e | e in deposits :: e.leafIndex < |chain| && e == LogAt(chain, e.leafIndex)
    ensures Seed(deposits).Ok? <==> exists m: nat :: FirstDeposits(chain, deposits, m)
    ensures Seed(deposits).Ok? ==>
      var cache := Seed(deposits).value;
      && PrefixCache(chain, cache)
      && (InOrder(chain) ==> (TrueCache(chain, cache) <==> NextIsLater(chain, |cache.leaves|, cache.lastBlock)))
  {
    hide UpTo, SortByIndex, Append, LastBlock, Increasing, DistinctIndices, NextIsLater;
    var sorted := SortByIndex(deposits);
    SortIsSorted(deposits);
    SeedAppends(chain, sorted);
    if Seed(deposits).Ok? && InOrder(chain) {
      AppendIsConsecutive([], [], sorted);
      forall i | 0 <= i < |sorted|
        ensures chain[i].block <= LastBlock(sorted)
      {
        assert sorted[i] in sorted && sorted[i] == LogAt(chain, i);
      }
      PrefixEndsAt(chain, |sorted|, LastBlock(sorted));
    }
    assert forall m: nat :: FirstDeposits(chain, SortByIndex(deposits), m) <==> FirstDeposits(chain, deposits, m);
  }

  /** What an accepted seed of true entries, not empty, is: the deposits up to some point, dated by the last of them. */
  lemma SeedIsDatedByItsLast(chain: Chain, deposits: seq<Log>)
    requires InOrder(chain) && deposits != [] && DistinctIndices(deposits) && Seed(deposits).Ok?
    requires forall e | e in deposits :: e.leafIndex < |chain| && e == LogAt(chain, e.leafIndex) && e.block >= 0
    ensures var cache := Seed(deposits).value;
      && PrefixCache(chain, cache) && cache.leafBlocks.Some?
      && 0 < |cache.leaves| && cache.lastBlock == chain[|cache.leaves| - 1].block
  {
    hide SortByIndex, Append, Increasing, DistinctIndices, PrefixCache;
    var sorted := SortByIndex(deposits);
    SeedIsTrueWhenBlocksAreWhole(chain, deposits);
    SortIsSorted(deposits);
    SeedAppends(chain, sorted);
    AppendIsConsecutive([], [], sorted);
    assert deposits[0] in sorted;
    assert sorted[|sorted| - 1] in sorted && sorted[|sorted| - 1] == LogAt(chain, |sorted| - 1);
    LastBlockIsOneOf(sorted);
    var last :| last in sorted && last.block == LastBlock(sorted);
    assert last == LogAt(chain, last.leafIndex);
    var k :| 0 <= k < |sorted| && sorted[k] == last;
    assert chain[k].block <= chain[|sorted| - 1].block;
  }

  lemma {:induction false} LastBlockIsOneOf(entries: seq<Log>)
    requires entries != [] && forall e | e in entries :: e.block >= 0
    ensures exists e :: e in entries && e.block == LastBlock(entries)
  {
    var last, rest := entries[|entries| - 1], entries[..|entries| - 1];
    assert last in entries;
    if rest == [] {
      assert last.block == LastBlock(entries);
    } else {
      LastBlockIsOneOf(rest);
      var e :| e in rest && e.block == LastBlock(rest);
      assert e in entries;
    }
  }

  /** Syncing a prefix that stops inside its last block misses the rest of that block, or fails. */
  lemma InsideABlockIsMissed(chain: Chain, c: LeafCache, head: int, chunk: nat, workers: nat, steps: seq<FetchStep>)
    requires InOrder(chain) && PrefixCache(chain, c) && c.leafBlocks.Some? && chunk > 0 && c.lastBlock <= head
    requires !NextIsLater(chain, |c.leaves|, c.lastBlock)
    requires ValidSync(chain, c, head, chunk, workers, true, steps)
    ensures Sync(c, head, steps) != Ok(FullScan(chain, head))
  {
    hide ValidFetch, SortByIndex, AfterFetch, RangesFrom, Kept, UpTo;
    var n, ranges := |c.leaves|, RangesFrom(c.lastBlock + 1, head, chunk);
    var f := AfterFetch(START, steps);
    RangesAreDisjoint(c.lastBlock + 1, head, chunk);
    FetchCollects(chain, ranges, workers, true, START, steps);
    SortIsSorted(f.events);
    var sorted := SortByIndex(f.events);
    assert n < UpTo(chain, head);
    AppendIsPrefix(chain, n, sorted);
    if sorted != [] && Append(c.leaves, c.leafBlocks.value, sorted).Ok? {
      AppendIsConsecutive(c.leaves, c.leafBlocks.value, sorted);
      assert sorted[0] in f.events;
      AllDelivered(chain, c.lastBlock + 1, head, chunk, f, n);
      assert false;
    }
  }

  /**
   An exact node makes a full scan of an accepted seed exactly when the cache is rewound below its
   last block or the seed does not stop inside that block, for every chunk size and schedule.
   */
  lemma SeedSyncsWhenBlocksAreWhole(chain: Chain, deposits: seq<Log>, head: int, chunk: nat, workers: nat, steps: seq<FetchStep>)
    requires InOrder(chain) && deposits != [] && DistinctIndices(deposits) && Seed(deposits).Ok? && chunk > 0
    requires forall e | e in deposits :: e.leafIndex < |chain| && e == LogAt(chain, e.leafIndex) && e.block >= 0
    requires ValidSync(chain, Seed(deposits).value, head, chunk, workers, true, steps)
    ensures var c := Seed(deposits).value;
      && |c.leaves| <= |chain|
      && (Sync(c, head, steps) == Ok(FullScan(chain, head))
          <==> head < c.lastBlock || NextIsLater(chain, |c.leaves|, c.lastBlock))
  {
    hide UpTo, SortByIndex, Append, LastBlock, DistinctIndices, NextIsLater, ValidFetch, Kept, AfterFetch, RangesFrom, Seed;
    var c := Seed(deposits).value;
    SeedIsDatedByItsLast(chain, deposits);
    if head < c.lastBlock {
      RewoundPrefixIsTrue(chain, c, head);
      var base := Rewound(c, head).value;
      SyncIsFullScan(chain, base, head, chunk, workers, steps);
    } else {
      SeedIsTrueWhenBlocksAreWhole(chain, deposits);
      if NextIsLater(chain, |c.leaves|, c.lastBlock) {
        SyncIsFullScan(chain, c, head, chunk, workers, steps);
      } else {
        InsideABlockIsMissed(chain, c, head, chunk, workers, steps);
      }
    }
  }

  /** Below the block of its last leaf a prefix holds every deposit, so cutting it back there is exact. */
  lemma RewoundPrefixIsTrue(chain: Chain, c: LeafCache, head: int)
    requires InOrder(chain) && PrefixCache(chain, c) && c.leafBlocks.Some? && head < c.lastBlock
    requires 0 < |c.leaves| && c.lastBlock == chain[|c.leaves| - 1].block
    ensures Rewound(c, head).Ok? && Rewound(c, head).value.lastBlock == head
    ensures TrueCache(chain, Rewound(c, head).value)
  {
    var known, n := |c.leaves|, UpTo(chain, head);
    assert n <= known;
    hide UpTo, Kept, InOrder;
    KeptIsUpTo(chain, known, head);
    assert Leaves(chain[..known])[..n] == Leaves(chain[..n]);
    assert Blocks(chain[..known])[..n] == Blocks(chain[..n]);
  }

  /**
   A seed that stops inside a block: it is accepted, and syncing it to that very block with an
   exact node asks for nothing and returns a cache that misses a deposit.
   */
  lemma SeedInsideABlock() returns (chain: Chain, deposits: seq<Log>)
    ensures InOrder(chain) && DistinctIndices(deposits)
    ensures forall e | e in deposits :: e.leafIndex < |chain| && e == LogAt(chain, e.leafIndex)
    ensures Seed(deposits).Ok? && !TrueCache(chain, Seed(deposits).value)
    ensures ValidSync(chain, Seed(deposits).value, 1, 1, 1, true, [])
    ensures Sync(Seed(deposits).value, 1, []).Ok? && Sync(Seed(deposits).value, 1, []) != Ok(FullScan(chain, 1))
  {
    chain, deposits := [Deposit(5, 1), Deposit(6, 1)], [Log(0, 5, 1)];
    assert SortByIndex(deposits[1..]) == [];
    assert SortByIndex(deposits) == deposits && deposits[..0] == [];
    assert [] + [5] == [5] && [] + [1] == [1];
    assert Append([], [], deposits) == Append([5], [1], deposits[1..]);
    assert Seed(deposits) == Ok(LeafCache(1, [5], Some([1])));
    assert UpTo(chain, 1) == 2 && |FullScan(chain, 1).leaves| == 2;
    assert RangesFrom(2, 1, 1) == [];
  }
}
