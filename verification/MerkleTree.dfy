/**
 The incremental Merkle tree of a pool and its ring of recent roots.

 The reference is the plain tree: `Node` hashes the perfect binary tree over the inserted
 leaves padded with the zero value, and `History` is the list of every root ever stored.
 The contract keeps one hash per level and thirty roots; `Valid` says how these stand for
 the plain tree and the plain list.
 */
module MerkleTree {
  import opened Common

  const FIELD_SIZE: nat := 21888242871839275222246405745257275088548364400416034343698204186575808495617
  const ZERO_VALUE: Word := 21663839004416932945382355908790599225266501822907911457504978515578255421292
  const ROOT_HISTORY_SIZE: nat := 30

  /** The hard-coded roots of the empty subtrees, by height. */
  function Zeros(i: nat): Word
    requires i < 32
  {
    if i == 0 then 0x2fe54c60d3acabf3343a35b6eba15db4821b340f76e741e2249685ed4899af6c
    else if i == 1 then 0x256a6135777eee2fd26f54b8b7037a25439d5235caee224154186d2b8a52e31d
    else if i == 2 then 0x1151949895e82ab19924de92c40a3d6f7bcb60d92b00504b8199613683f0c200
    else if i == 3 then 0x20121ee811489ff8d61f09fb89e313f14959a0f28bb428a20dba6b0b068b3bdb
    else if i == 4 then 0x0a89ca6ffa14cc462cfedb842c30ed221a50a3d6bf022a6a57dc82ab24c157c9
    else if i == 5 then 0x24ca05c2b5cd42e890d6be94c68d0689f4f21c9cec9c0f13fe41d566dfb54959
    else if i == 6 then 0x1ccb97c932565a92c60156bdba2d08f3bf1377464e025cee765679e604a7315c
    else if i == 7 then 0x19156fbd7d1a8bf5cba8909367de1b624534ebab4f0f79e003bccdd1b182bdb4
    else if i == 8 then 0x261af8c1f0912e465744641409f622d466c3920ac6e5ff37e36604cb11dfff80
    else if i == 9 then 0x0058459724ff6ca5a1652fcbc3e82b93895cf08e975b19beab3f54c217d1c007
    else if i == 10 then 0x1f04ef20dee48d39984d8eabe768a70eafa6310ad20849d4573c3c40c2ad1e30
    else if i == 11 then 0x1bea3dec5dab51567ce7e200a30f7ba6d4276aeaa53e2686f962a46c66d511e5
    else if i == 12 then 0x0ee0f941e2da4b9e31c3ca97a40d8fa9ce68d97c084177071b3cb46cd3372f0f
    else if i == 13 then 0x1ca9503e8935884501bbaf20be14eb4c46b89772c97b96e3b2ebf3a36a948bbd
    else if i == 14 then 0x133a80e30697cd55d8f7d4b0965b7be24057ba5dc3da898ee2187232446cb108
    else if i == 15 then 0x13e6d8fc88839ed76e182c2a779af5b2c0da9dd18c90427a644f7e148a6253b6
    else if i == 16 then 0x1eb16b057a477f4bc8f572ea6bee39561098f78f15bfb3699dcbb7bd8db61854
    else if i == 17 then 0x0da2cb16a1ceaabf1c16b838f7a9e3f2a3a3088d9e0a6debaa748114620696ea
    else if i == 18 then 0x24a3b3d822420b14b5d8cb6c28a574f01e98ea9e940551d2ebd75cee12649f9d
    else if i == 19 then 0x198622acbd783d1b0d9064105b1fc8e4d8889de95c4c519b3f635809fe6afc05
    else if i == 20 then 0x29d7ed391256ccc3ea596c86e933b89ff339d25ea8ddced975ae2fe30b5296d4
    else if i == 21 then 0x19be59f2f0413ce78c0c3703a3a5451b1d7f39629fa33abd11548a76065b2967
    else if i == 22 then 0x1ff3f61797e538b70e619310d33f2a063e7eb59104e112e95738da1254dc3453
    else if i == 23 then 0x10c16ae9959cf8358980d9dd9616e48228737310a10e2b6b731c1a548f036c48
    else if i == 24 then 0x0ba433a63174a90ac20992e75e3095496812b652685b5e1a2eae0b1bf4e8fcd1
    else if i == 25 then 0x019ddb9df2bc98d987d0dfeca9d2b643deafab8f7036562e627c3667266a044c
    else if i == 26 then 0x2d3c88b23175c5a5565db928414c66d1912b11acf974b2e644caaac04739ce99
    else if i == 27 then 0x2eab55f6ae4e66e32c5189eed5c470840863445760f5ed7e7b69b2a62600f354
    else if i == 28 then 0x002df37a2642621802383cf952bf4dd1f32e05433beeb1fd41031fb7eace979d
    else if i == 29 then 0x104aeb41435db66c3e62feccc1d6f5d98d0a0ed75d1374db457cf462e3a1f427
    else if i == 30 then 0x1f3c6fd858e9a7d4b0d1f38e256a09d81d5a5e3c963987e2d4b814cfab7c6ebb
    else 0x2c7a07d20dff79d01fecedc1134284a8d08436606c93693b67e333f671bf69cc
  }

  /** What `hashLeftRight` returns once both arguments passed its range checks (MiMC, left abstract). */
  type Hash = (Word, Word) -> Word

  predicate InField(w: Word) {
    w < FIELD_SIZE
  }

  ghost predicate ZeroStep(hash: Hash, i: nat)
    requires i < 31
  {
    Zeros(i + 1) == hash(Zeros(i), Zeros(i))
  }

  /** Hypothesis on the table: each entry is the hash of two copies of the one below. */
  ghost predicate ZeroTableCorrect(hash: Hash) {
    forall i: nat | i < 31 :: ZeroStep(hash, i)
  }

  ghost predicate HashInField(hash: Hash, left: Word, right: Word) {
    InField(hash(left, right))
  }

  /** Hypothesis on the hasher: it works modulo the field. */
  ghost predicate FieldClosed(hash: Hash) {
    forall left: Word, right: Word :: HashInField(hash, left, right)
  }

  // ------------------------------------------------------------ the plain tree

  function LeafAt(leaves: seq<Word>, j: nat): Word {
    if j < |leaves| then leaves[j] else ZERO_VALUE
  }

  /** Node `j` of height `level` in the perfect tree over the padded leaves. */
  function Node(hash: Hash, leaves: seq<Word>, level: nat, j: nat): Word {
    if level == 0 then LeafAt(leaves, j)
    else hash(Node(hash, leaves, level - 1, 2 * j), Node(hash, leaves, level - 1, 2 * j + 1))
  }

  function TreeRoot(hash: Hash, leaves: seq<Word>, levels: nat): Word {
    Node(hash, leaves, levels, 0)
  }

  /** The position, at height `level`, of the ancestor of leaf `n`. */
  function Ancestor(n: nat, level: nat): nat {
    if level == 0 then n else Ancestor(n, level - 1) / 2
  }

  lemma {:induction false} AncestorAtTop(n: nat, level: nat, levels: nat)
    requires level <= levels && n < Pow2(levels)
    ensures Ancestor(n, level) < Pow2(levels - level)
  {
    if level == 0 {
    } else {
      AncestorAtTop(n, level - 1, levels);
    }
  }

  /** The next leaf has the same ancestor, or the next one when a subtree has just filled up. */
  lemma {:induction false} AncestorOfNext(n: nat, level: nat)
    ensures Ancestor(n + 1, level) == Ancestor(n, level)
         || Ancestor(n + 1, level) == Ancestor(n, level) + 1
  {
    if level == 0 {
    } else {
      AncestorOfNext(n, level - 1);
    }
  }

  /** The field is the scalar field of the BN254 curve, given by its parameter. */
  lemma FieldIsBn254()
    ensures var t := 4965661367192848881;
      FIELD_SIZE == 36 * t * t * t * t + 36 * t * t * t + 18 * t * t + 6 * t + 1
  {
  }

  /** Appending a leaf changes no node but its ancestors. */
  lemma {:induction false} AppendFrame(hash: Hash, leaves: seq<Word>, leaf: Word, level: nat, j: nat)
    requires j != Ancestor(|leaves|, level)
    ensures Node(hash, leaves + [leaf], level, j) == Node(hash, leaves, level, j)
  {
    if level == 0 {
    } else {
      AppendFrame(hash, leaves, leaf, level - 1, 2 * j);
      AppendFrame(hash, leaves, leaf, level - 1, 2 * j + 1);
    }
  }

  /** Right of the last leaf's ancestors there are only empty subtrees. */
  lemma {:induction false} EmptyNode(hash: Hash, leaves: seq<Word>, level: nat, j: nat)
    requires ZeroTableCorrect(hash) && level < 32
    requires leaves == [] || j > Ancestor(|leaves| - 1, level)
    ensures Node(hash, leaves, level, j) == Zeros(level)
  {
    hide Zeros;
    ZeroTableFacts(level);
    if level == 0 {
    } else {
      EmptyNode(hash, leaves, level - 1, 2 * j);
      EmptyNode(hash, leaves, level - 1, 2 * j + 1);
      assert ZeroStep(hash, level - 1);
    }
  }

  lemma {:induction false} NodeInField(hash: Hash, leaves: seq<Word>, level: nat, j: nat)
    requires FieldClosed(hash)
    requires forall leaf :: leaf in leaves ==> InField(leaf)
    ensures InField(Node(hash, leaves, level, j))
  {
    hide Zeros;
    if level == 0 {
      if j < |leaves| {
        assert leaves[j] in leaves;
      }
    } else {
      assert HashInField(hash, Node(hash, leaves, level - 1, 2 * j), Node(hash, leaves, level - 1, 2 * j + 1));
    }
  }

  /** No entry of the table is outside the field, and neighbouring entries differ. */
  lemma ZeroTableFacts(i: nat)
    requires i < 32
    ensures Zeros(0) == ZERO_VALUE && InField(Zeros(i))
    ensures i > 0 ==> Zeros(i) != Zeros(i - 1)
  {
  }

  // ------------------------------------------------------------ the list of roots

  /** The root stored after `n` inserts; the constructor's root is one level short. */
  function StoredRoot(hash: Hash, levels: nat, leaves: seq<Word>, n: nat): Word
    requires 0 < levels < 32 && n <= |leaves|
  {
    if n == 0 then Zeros(levels - 1) else TreeRoot(hash, leaves[..n], levels)
  }

  /** Every root stored so far, oldest first. */
  function History(hash: Hash, levels: nat, leaves: seq<Word>): (roots: seq<Word>)
    requires 0 < levels < 32
    ensures |roots| == |leaves| + 1
  {
    if leaves == [] then [Zeros(levels - 1)]
    else History(hash, levels, leaves[..|leaves| - 1]) + [TreeRoot(hash, leaves, levels)]
  }

  lemma HistoryAppend(hash: Hash, levels: nat, leaves: seq<Word>, leaf: Word)
    requires 0 < levels < 32
    ensures History(hash, levels, leaves + [leaf])
         == History(hash, levels, leaves) + [TreeRoot(hash, leaves + [leaf], levels)]
  {
    assert (leaves + [leaf])[..|leaves|] == leaves;
  }

  /** Entry `n` of the list is the root stored by the `n`-th insert. */
  lemma {:induction false} HistoryAt(hash: Hash, levels: nat, leaves: seq<Word>, n: nat)
    requires 0 < levels < 32 && n <= |leaves|
    ensures History(hash, levels, leaves)[n] == StoredRoot(hash, levels, leaves, n)
  {
    hide Zeros;
    if n == |leaves| {
      assert leaves[..n] == leaves;
    } else {
      HistoryAt(hash, levels, leaves[..|leaves| - 1], n);
      assert leaves[..|leaves| - 1][..n] == leaves[..n];
    }
  }

  /** The stored root is the root of the tree it stands for exactly when something was inserted. */
  lemma StoredRootIsTreeRoot(hash: Hash, levels: nat, leaves: seq<Word>)
    requires ZeroTableCorrect(hash) && 0 < levels < 32
    ensures StoredRoot(hash, levels, leaves, |leaves|) == TreeRoot(hash, leaves, levels) <==> leaves != []
  {
    hide Zeros;
    if leaves == [] {
      EmptyNode(hash, leaves, levels, 0);
      ZeroTableFacts(levels);
    } else {
      assert leaves[..|leaves|] == leaves;
    }
  }

  /** The last `ROOT_HISTORY_SIZE` entries of a list. */
  function Recent(roots: seq<Word>): seq<Word> {
    if |roots| <= ROOT_HISTORY_SIZE then roots else roots[|roots| - ROOT_HISTORY_SIZE..]
  }

  /** `p` steps back from the newest root: its slot in the ring. */
  function Slot(count: nat, p: nat): nat {
    (count - 1 - p) % ROOT_HISTORY_SIZE
  }

  /** One step back in the ring, and when the walk is back where it began. */
  lemma SlotWraps(count: nat, p: nat)
    requires 0 < p <= ROOT_HISTORY_SIZE
    ensures Slot(count, p) == if Slot(count, p - 1) == 0 then ROOT_HISTORY_SIZE - 1 else Slot(count, p - 1) - 1
    ensures Slot(count, p) == Slot(count, 0) <==> p == ROOT_HISTORY_SIZE
  {
  }

  /** What the ring holds `p` steps back from the newest root; never written slots hold zero. */
  function Back(roots: seq<Word>, p: nat): Word {
    if p < |roots| then roots[|roots| - 1 - p] else 0
  }

  /** A stored root stays known while at most 29 more are stored, and after 30 only if it was stored again among the newest 30. */
  lemma KnownForThirtyRoots(roots: seq<Word>, more: seq<Word>)
    requires roots != []
    ensures |more| <= 29 ==> roots[|roots| - 1] in Recent(roots + more)
    ensures |more| >= 30 ==> (roots[|roots| - 1] in Recent(roots + more) <==> roots[|roots| - 1] in more[|more| - 30..])
  {
    var all, root := roots + more, roots[|roots| - 1];
    if |more| <= 29 {
      assert Recent(all)[|Recent(all)| - 1 - |more|] == root;
    } else {
      assert Recent(all) == more[|more| - 30..];
    }
  }

  lemma FoundIsRecent(roots: seq<Word>, root: Word, p: nat)
    requires root != 0 && p < ROOT_HISTORY_SIZE && Back(roots, p) == root
    ensures root in Recent(roots)
  {
    assert Recent(roots)[|Recent(roots)| - 1 - p] == root;
  }

  lemma MissedIsNotRecent(roots: seq<Word>, root: Word)
    requires forall p: nat | p < ROOT_HISTORY_SIZE :: Back(roots, p) != root
    ensures root !in Recent(roots)
  {
    forall k | 0 <= k < |Recent(roots)|
      ensures Recent(roots)[k] != root
    {
      assert Back(roots, |Recent(roots)| - 1 - k) == Recent(roots)[k];
    }
  }

  lemma {:induction false} AncestorOfZero(level: nat)
    ensures Ancestor(0, level) == 0
  {
    if level == 0 {
    } else {
      AncestorOfZero(level - 1);
    }
  }

  // ------------------------------------------------------------ what the storage stands for

  /** Level `i` of the cache: the completed left sibling on the path of the next leaf, if there is one. */
  ghost predicate CachedAt(hash: Hash, leaves: seq<Word>, cache: map<nat, Word>, i: nat) {
    && i in cache
    && (Ancestor(|leaves|, i) % 2 == 1 ==> cache[i] == Node(hash, leaves, i, Ancestor(|leaves|, i) - 1))
  }

  ghost predicate Cached(hash: Hash, levels: nat, leaves: seq<Word>, cache: map<nat, Word>) {
    forall i: nat | i < levels :: CachedAt(hash, leaves, cache, i)
  }

  /** Level `i` of the cache once the insert loop has passed it. */
  ghost predicate UpdatedAt(hash: Hash, leaves: seq<Word>, leaf: Word, before: map<nat, Word>, cache: map<nat, Word>, i: nat) {
    && i in cache && i in before
    && cache[i] == if Ancestor(|leaves|, i) % 2 == 0 then Node(hash, leaves + [leaf], i, Ancestor(|leaves|, i)) else before[i]
  }

  lemma Children(hash: Hash, leaves: seq<Word>, level: nat, j: nat)
    ensures Node(hash, leaves, level + 1, j)
         == hash(Node(hash, leaves, level, 2 * j), Node(hash, leaves, level, 2 * j + 1))
  {
  }

  lemma AncestorAbove(n: nat, level: nat)
    ensures Ancestor(n, level + 1) == Ancestor(n, level) / 2
  {
  }

  lemma AncestorAtBottom(hash: Hash, leaves: seq<Word>, leaf: Word)
    ensures Ancestor(|leaves|, 0) == |leaves| && Node(hash, leaves + [leaf], 0, |leaves|) == leaf
  {
  }

  ghost predicate UpdatedBelow(hash: Hash, leaves: seq<Word>, leaf: Word, before: map<nat, Word>, cache: map<nat, Word>, i: nat) {
    forall k: nat | k < i :: UpdatedAt(hash, leaves, leaf, before, cache, k)
  }

  lemma UpdateLevel(hash: Hash, leaves: seq<Word>, leaf: Word, before: map<nat, Word>, cache: map<nat, Word>, i: nat, after: map<nat, Word>)
    requires UpdatedBelow(hash, leaves, leaf, before, cache, i)
    requires UpdatedAt(hash, leaves, leaf, before, after, i)
    requires i in cache && after == cache[i := after[i]]
    ensures UpdatedBelow(hash, leaves, leaf, before, after, i + 1)
  {
    forall k: nat | k <= i
      ensures UpdatedAt(hash, leaves, leaf, before, after, k)
    {
      if k < i {
        assert UpdatedAt(hash, leaves, leaf, before, cache, k);
      }
    }
  }

  /** The two children hashed at level `i`: the new node and its sibling in the enlarged tree. */
  lemma LevelHash(hash: Hash, levels: nat, leaves: seq<Word>, leaf: Word, i: nat, cache: map<nat, Word>)
    requires Cached(hash, levels, leaves, cache) && ZeroTableCorrect(hash) && i < levels < 32
    requires forall l :: l in leaves ==> InField(l)
    ensures i in cache
    ensures var a := Ancestor(|leaves|, i);
      var current := Node(hash, leaves + [leaf], i, a);
      var left := if a % 2 == 0 then current else cache[i];
      var right := if a % 2 == 0 then Zeros(i) else current;
      && left == Node(hash, leaves + [leaf], i, 2 * (a / 2))
      && right == Node(hash, leaves + [leaf], i, 2 * (a / 2) + 1)
      && (i == 0 ==> current == leaf)
  {
    hide Zeros;
    var a := Ancestor(|leaves|, i);
    var next := leaves + [leaf];
    assert CachedAt(hash, leaves, cache, i);
    if a % 2 == 0 {
      assert 2 * (a / 2) == a && |next| - 1 == |leaves|;
      EmptyNode(hash, next, i, a + 1);
      assert Node(hash, next, i, 2 * (a / 2) + 1) == Zeros(i);
    } else {
      assert 2 * (a / 2) == a - 1;
      AppendFrame(hash, leaves, leaf, i, a - 1);
      assert Node(hash, next, i, 2 * (a / 2)) == cache[i];
    }
  }

  /** With a hasher that stays in the field, both values hashed at level `i` are in the field. */
  lemma LevelInField(hash: Hash, levels: nat, leaves: seq<Word>, leaf: Word, i: nat, cache: map<nat, Word>)
    requires Cached(hash, levels, leaves, cache) && FieldClosed(hash) && InField(leaf) && i < levels < 32
    requires forall l :: l in leaves ==> InField(l)
    ensures InField(Zeros(i)) && InField(Node(hash, leaves + [leaf], i, Ancestor(|leaves|, i)))
    ensures Ancestor(|leaves|, i) % 2 == 1 ==> i in cache && InField(cache[i])
  {
    hide Zeros, Node, Ancestor, InField, FieldClosed;
    var a := Ancestor(|leaves|, i);
    assert CachedAt(hash, leaves, cache, i);
    ZeroTableFacts(i);
    NodeInField(hash, leaves + [leaf], i, a);
    if a % 2 == 1 {
      NodeInField(hash, leaves, i, a - 1);
    }
  }

  lemma InitialStorage(hash: Hash, levels: nat, cache: map<nat, Word>, ring: map<nat, Word>)
    requires 0 < levels < 32
    requires forall i: nat | i < levels :: i in cache
    requires ring == map[0 := Zeros(levels - 1)]
    ensures Cached(hash, levels, [], cache)
    ensures RingHolds(ring, 0, History(hash, levels, []))
  {
    forall i: nat | i < levels
      ensures CachedAt(hash, [], cache, i)
    {
      AncestorOfZero(i);
    }
    var roots := History(hash, levels, []);
    forall p: nat | p < ROOT_HISTORY_SIZE
      ensures Get(ring, Slot(|roots|, p)) == Back(roots, p)
    {
      if p > 0 {
        assert Slot(1, p) == ROOT_HISTORY_SIZE - p;
      }
    }
  }

  lemma CacheAfterInsert(hash: Hash, levels: nat, leaves: seq<Word>, leaf: Word, before: map<nat, Word>, cache: map<nat, Word>)
    requires Cached(hash, levels, leaves, before)
    requires UpdatedBelow(hash, leaves, leaf, before, cache, levels)
    ensures Cached(hash, levels, leaves + [leaf], cache)
  {
    hide Zeros;
    forall i: nat | i < levels
      ensures CachedAt(hash, leaves + [leaf], cache, i)
    {
      assert CachedAt(hash, leaves, before, i) && UpdatedAt(hash, leaves, leaf, before, cache, i);
      AncestorOfNext(|leaves|, i);
      var a := Ancestor(|leaves|, i);
      if a % 2 == 1 {
        AppendFrame(hash, leaves, leaf, i, a - 1);
      }
    }
  }

  /** The ring holds the newest thirty roots, newest first when walked backwards from `current`. */
  ghost predicate RingHolds(ring: map<nat, Word>, current: nat, roots: seq<Word>) {
    && current == Slot(|roots|, 0)
    && forall p: nat | p < ROOT_HISTORY_SIZE :: Get(ring, Slot(|roots|, p)) == Back(roots, p)
  }

  lemma RingAfterInsert(ring: map<nat, Word>, current: nat, roots: seq<Word>, root: Word)
    requires RingHolds(ring, current, roots)
    ensures var next := (current + 1) % ROOT_HISTORY_SIZE;
      RingHolds(ring[next := root], next, roots + [root])
  {
    var next := (current + 1) % ROOT_HISTORY_SIZE;
    assert next == Slot(|roots| + 1, 0);
    forall p: nat | p < ROOT_HISTORY_SIZE
      ensures Get(ring[next := root], Slot(|roots| + 1, p)) == Back(roots + [root], p)
    {
      if p > 0 {
        assert Slot(|roots| + 1, p) == Slot(|roots|, p - 1) != next;
        assert Back(roots + [root], p) == Back(roots, p - 1);
      }
    }
  }

  lemma StorageAfterInsert(hash: Hash, levels: nat, leaves: seq<Word>, leaf: Word,
                           before: map<nat, Word>, cache: map<nat, Word>, ring: map<nat, Word>, current: nat)
    requires 0 < levels < 32
    requires Cached(hash, levels, leaves, before) && UpdatedBelow(hash, leaves, leaf, before, cache, levels)
    requires RingHolds(ring, current, History(hash, levels, leaves))
    ensures var root := TreeRoot(hash, leaves + [leaf], levels);
      var next := (current + 1) % ROOT_HISTORY_SIZE;
      && Cached(hash, levels, leaves + [leaf], cache)
      && RingHolds(ring[next := root], next, History(hash, levels, leaves + [leaf]))
      && History(hash, levels, leaves + [leaf]) == History(hash, levels, leaves) + [root]
  {
    hide Zeros;
    CacheAfterInsert(hash, levels, leaves, leaf, before, cache);
    HistoryAppend(hash, levels, leaves, leaf);
    RingAfterInsert(ring, current, History(hash, levels, leaves), TreeRoot(hash, leaves + [leaf], levels));
  }

  class MerkleTreeWithHistory {
    const hasher: Hash
    const levels: nat
    var filledSubtrees: map<nat, Word>
    var roots: map<nat, Word>
    var currentRootIndex: nat
    var nextIndex: nat

    /** The leaves inserted so far. */
    ghost var leaves: seq<Word>

    /** Every root stored so far, oldest first. */
    ghost function Roots(): (s: seq<Word>)
      requires 0 < levels < 32
      reads this
    {
      History(hasher, levels, leaves)
    }

    ghost predicate Valid()
      reads this
    {
      && 0 < levels < 32
      && nextIndex == |leaves| <= Pow2(levels)
      && (forall leaf :: leaf in leaves ==> InField(leaf))
      && Cached(hasher, levels, leaves, filledSubtrees)
      && RingHolds(roots, currentRootIndex, Roots())
    }

    constructor (levels: nat, hasher: Hash)
      requires 0 < levels < 32
      ensures Valid() && leaves == []
      ensures this.levels == levels && this.hasher == hasher
    {
      var filled: map<nat, Word> := map[];
      for i := 0 to levels
        invariant forall k: nat | k < i :: k in filled
      {
        filled := filled[i := Zeros(i)];
      }
      this.levels := levels;
      this.hasher := hasher;
      filledSubtrees := filled;
      roots := map[0 := Zeros(levels - 1)];
      currentRootIndex, nextIndex := 0, 0;
      leaves := [];
      new;
      InitialStorage(hasher, levels, filledSubtrees, roots);
    }

    /**
     The insert loop: hashes the leaf up to the root, caching the left siblings on the way.
     Reverts, restoring the cache, when a hashed value is outside the field.
     */
    method HashUp(leaf: Word) returns (root: Option<Word>)
      requires Valid() && ZeroTableCorrect(hasher)
      modifies `filledSubtrees
      ensures root.None? ==> filledSubtrees == old(filledSubtrees)
      ensures root.Some? ==>
        && root.value == Node(hasher, leaves + [leaf], levels, Ancestor(|leaves|, levels))
        && UpdatedBelow(hasher, leaves, leaf, old(filledSubtrees), filledSubtrees, levels)
        && InField(leaf)
      ensures FieldClosed(hasher) && InField(leaf) ==> root.Some?
    {
      AncestorAtBottom(hasher, leaves, leaf);
      hide Zeros, RingHolds, FieldClosed, ZeroTableCorrect, History, Node, Ancestor, LeafAt;
      var before := filledSubtrees;
      forall k: nat | k < levels
        ensures k in before
      {
        assert CachedAt(hasher, leaves, before, k);
      }
      var currentIndex := nextIndex;
      var currentLevelHash := leaf;
      var i := 0;
      while i < levels
        invariant 0 <= i <= levels
        invariant currentIndex == Ancestor(|leaves|, i)
        invariant currentLevelHash == Node(hasher, leaves + [leaf], i, currentIndex)
        invariant UpdatedBelow(hasher, leaves, leaf, before, filledSubtrees, i)
        invariant forall k: nat | i <= k < levels :: k in filledSubtrees && k in before && filledSubtrees[k] == before[k]
        invariant i > 0 ==> InField(leaf)
      {
        var left, right;
        ghost var cache := filledSubtrees;
        LevelHash(hasher, levels, leaves, leaf, i, before);
        Children(hasher, leaves + [leaf], i, currentIndex / 2);
        AncestorAbove(|leaves|, i);
        if FieldClosed(hasher) && InField(leaf) {
          LevelInField(hasher, levels, leaves, leaf, i, before);
        }
        if currentIndex % 2 == 0 {
          left, right := currentLevelHash, Zeros(i);
          filledSubtrees := filledSubtrees[i := currentLevelHash];
        } else {
          left, right := filledSubtrees[i], currentLevelHash;
        }
        UpdateLevel(hasher, leaves, leaf, before, cache, i, filledSubtrees);
        if !InField(left) || !InField(right) {
          filledSubtrees := before;
          return None;
        }
        currentLevelHash := hasher(left, right);
        currentIndex := currentIndex / 2;
        i := i + 1;
      }
      root := Some(currentLevelHash);
    }

    /**
     Appends a leaf and stores the root of the enlarged tree. Reverts, changing nothing, when
     the tree is full or a hashed value is outside the field; with a hasher that stays in the
     field, exactly when the tree is full or the leaf itself is outside it.
     */
    method Insert(leaf: Word) returns (index: Option<nat>)
      requires Valid() && ZeroTableCorrect(hasher)
      modifies this
      ensures Valid()
      ensures index.None? ==> unchanged(this)
      ensures index.Some? ==>
        && index.value == |old(leaves)|
        && leaves == old(leaves) + [leaf]
        && Roots() == old(Roots()) + [TreeRoot(hasher, leaves, levels)]
      ensures FieldClosed(hasher) ==>
        (index.Some? <==> |old(leaves)| < Pow2(levels) && InField(leaf))
    {
      hide Zeros, RingHolds, FieldClosed, ZeroTableCorrect, Cached, UpdatedBelow;
      if nextIndex == Pow2(levels) {
        return None;
      }
      var root := HashUp(leaf);
      if root.None? {
        return None;
      }
      AncestorAtTop(|leaves|, levels, levels);
      StorageAfterInsert(hasher, levels, leaves, leaf, old(filledSubtrees), filledSubtrees, roots, currentRootIndex);
      currentRootIndex := (currentRootIndex + 1) % ROOT_HISTORY_SIZE;
      roots := roots[currentRootIndex := root.value];
      nextIndex := nextIndex + 1;
      leaves := leaves + [leaf];
      return Some(nextIndex - 1);
    }

    /**
     Whether a root is among the newest thirty ever stored (and not zero). The search stops
     after at most thirty probes.
     */
    method IsKnownRoot(root: Word) returns (known: bool, ghost probes: nat)
      requires Valid()
      ensures known <==> root != 0 && root in Recent(Roots())
      ensures probes <= ROOT_HISTORY_SIZE
    {
      probes := 0;
      if root == 0 {
        return false, 0;
      }
      ghost var past := Roots();
      var i := currentRootIndex;
      var more := true;
      while more
        invariant probes <= ROOT_HISTORY_SIZE
        invariant i == Slot(|past|, probes)
        invariant more <==> probes < ROOT_HISTORY_SIZE
        invariant forall p: nat | p < probes :: Back(past, p) != root
        decreases ROOT_HISTORY_SIZE - probes
      {
        assert Get(roots, Slot(|past|, probes)) == Back(past, probes);
        probes := probes + 1;
        if root == Get(roots, i) {
          FoundIsRecent(past, root, probes - 1);
          return true, probes;
        }
        if i == 0 {
          i := ROOT_HISTORY_SIZE;
        }
        i := i - 1;
        SlotWraps(|past|, probes);
        more := i != currentRootIndex;
      }
      MissedIsNotRecent(past, root);
      known := false;
    }

    /** The newest root; the root of the full tree once anything was inserted. */
    method GetLastRoot() returns (root: Word)
      requires Valid()
      ensures root == StoredRoot(hasher, levels, leaves, |leaves|)
      ensures leaves != [] ==> root == TreeRoot(hasher, leaves, levels)
    {
      root := Get(roots, currentRootIndex);
      assert leaves[..|leaves|] == leaves;
      HistoryAt(hasher, levels, leaves, |leaves|);
      assert Get(roots, Slot(|Roots()|, 0)) == Back(Roots(), 0);
    }
  }
}
