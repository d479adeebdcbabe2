/**
 What a withdrawal proof shows: a note, its position and the sibling hashes up to a root.

 The binding theorem connects such a path to the plain tree: unless the path itself hashes to
 a value of the honest tree by a different pair, the note is the leaf at that position.
 */
module MerklePath {
  import opened Common
  import opened MerkleTree

  /** The private inputs of an accepted proof. */
  datatype Path = Path(commitment: Word, index: nat, siblings: seq<Word>)

  type Pair = (Word, Word)

  /** The value the path reaches after hashing `level` times. */
  function Fold(hash: Hash, path: Path, level: nat): Word
    requires level <= |path.siblings|
    decreases level, 0
  {
    if level == 0 then path.commitment else
      var pair := PathPair(hash, path, level - 1);
      hash(pair.0, pair.1)
  }

  /** The pair the path hashes at `level`; the index says on which side the path runs. */
  function PathPair(hash: Hash, path: Path, level: nat): Pair
    requires level < |path.siblings|
    decreases level, 1
  {
    if Ancestor(path.index, level) % 2 == 0 then (Fold(hash, path, level), path.siblings[level])
    else (path.siblings[level], Fold(hash, path, level))
  }

  /** The pair under node `j` of height `level + 1`. */
  function NodePair(hash: Hash, leaves: seq<Word>, level: nat, j: nat): Pair {
    (Node(hash, leaves, level, 2 * j), Node(hash, leaves, level, 2 * j + 1))
  }

  ghost predicate NoCollision(hash: Hash, a: Pair, b: Pair) {
    hash(a.0, a.1) == hash(b.0, b.1) ==> a == b
  }

  ghost predicate StepCollisionFree(hash: Hash, leaves: seq<Word>, path: Path, level: nat, shift: nat)
    requires shift + level < |path.siblings|
  {
    NoCollision(hash, PathPair(hash, path, shift + level),
                NodePair(hash, leaves, level, Ancestor(path.index, shift + level + 1)))
  }

  /**
   The path does not collide with the tree over `leaves` in `height` steps. Step `shift + level`
   of the path is compared with height `level` of the tree.
   */
  ghost predicate CollisionFree(hash: Hash, leaves: seq<Word>, path: Path, height: nat, shift: nat)
    requires shift + height <= |path.siblings|
  {
    forall level: nat | level < height :: StepCollisionFree(hash, leaves, path, level, shift)
  }

  /** Two routes that meet at a node and do not collide below it started from the same leaf. */
  lemma {:induction false} Binding(hash: Hash, leaves: seq<Word>, path: Path, height: nat, shift: nat)
    requires shift + height <= |path.siblings|
    requires Fold(hash, path, shift + height) == Node(hash, leaves, height, Ancestor(path.index, shift + height))
    requires CollisionFree(hash, leaves, path, height, shift)
    ensures Fold(hash, path, shift) == LeafAt(leaves, Ancestor(path.index, shift))
  {
    if height == 0 {
    } else {
      var level := height - 1;
      assert StepCollisionFree(hash, leaves, path, level, shift);
      assert Ancestor(path.index, shift + height) == Ancestor(path.index, shift + level) / 2;
      forall below: nat | below < level
        ensures StepCollisionFree(hash, leaves, path, below, shift)
      {
      }
      Binding(hash, leaves, path, level, shift);
    }
  }

  function Sibling(hash: Hash, leaves: seq<Word>, level: nat, j: nat): Word {
    Node(hash, leaves, level, if j % 2 == 0 then j + 1 else j - 1)
  }

  function Siblings(hash: Hash, leaves: seq<Word>, index: nat, levels: nat): (siblings: seq<Word>)
    ensures |siblings| == levels
    ensures forall level: nat | level < levels ::
      siblings[level] == Sibling(hash, leaves, level, Ancestor(index, level))
  {
    if levels == 0 then []
    else Siblings(hash, leaves, index, levels - 1) + [Sibling(hash, leaves, levels - 1, Ancestor(index, levels - 1))]
  }

  /** The path of a deposited note. */
  function HonestPath(hash: Hash, leaves: seq<Word>, index: nat, levels: nat): Path
    requires index < |leaves|
  {
    Path(leaves[index], index, Siblings(hash, leaves, index, levels))
  }

  /** One level up, with the sibling on the right side. */
  lemma HonestStep(hash: Hash, leaves: seq<Word>, index: nat, path: Path, level: nat)
    requires index < |leaves| && level < |path.siblings|
    requires path == HonestPath(hash, leaves, index, |path.siblings|)
    requires Fold(hash, path, level) == Node(hash, leaves, level, Ancestor(index, level))
    ensures Fold(hash, path, level + 1) == Node(hash, leaves, level + 1, Ancestor(index, level + 1))
  {
    hide Siblings, Node;
    var j := Ancestor(index, level);
    assert path.siblings[level] == Sibling(hash, leaves, level, j);
    assert if j % 2 == 0 then 2 * (j / 2) == j else 2 * (j / 2) == j - 1;
    Children(hash, leaves, level, j / 2);
  }

  lemma {:induction false} HonestPathFolds(hash: Hash, leaves: seq<Word>, index: nat, path: Path, level: nat)
    requires index < |leaves| && level <= |path.siblings|
    requires path == HonestPath(hash, leaves, index, |path.siblings|)
    ensures Fold(hash, path, level) == Node(hash, leaves, level, Ancestor(index, level))
  {
    if level == 0 {
    } else {
      HonestPathFolds(hash, leaves, index, path, level - 1);
      HonestStep(hash, leaves, index, path, level - 1);
    }
  }

  /**
   Hypotheses on a note that a proof can be made for: its nullifier is the one the commitment
   fixes, it is not the padding value, the path is as long as the tree is high, and it collides
   neither with any tree the pool has had nor with the constructor's shorter one.
   */
  ghost predicate Genuine(hash: Hash, levels: nat, leaves: seq<Word>, path: Path)
    requires 0 < levels < 32
  {
    && |path.siblings| == levels
    && path.index < Pow2(levels)
    && path.commitment != ZERO_VALUE
    && Fold(hash, path, 1) != ZERO_VALUE
    && CollisionFree(hash, [], path, levels - 1, 1)
    && forall n: nat | n <= |leaves| :: CollisionFree(hash, leaves[..n], path, levels, 0)
  }

  /** A genuine path to any stored root belongs to a note that was deposited before that root. */
  lemma AcceptedNoteWasDeposited(hash: Hash, levels: nat, leaves: seq<Word>, n: nat, path: Path)
    requires ZeroTableCorrect(hash) && 0 < levels < 32 && n <= |leaves|
    requires Genuine(hash, levels, leaves, path)
    requires Fold(hash, path, levels) == StoredRoot(hash, levels, leaves, n)
    ensures path.index < n && path.commitment == leaves[path.index]
  {
    hide Zeros;
    AncestorAtTop(path.index, levels, levels);
    if n == 0 {
      EmptyNode(hash, [], levels - 1, 0);
      Binding(hash, [], path, levels - 1, 1);
      assert false;
    } else {
      assert CollisionFree(hash, leaves[..n], path, levels, 0);
      Binding(hash, leaves[..n], path, levels, 0);
    }
  }

  /** Every deposited note can be withdrawn against any later stored root. */
  lemma DepositedNoteHasPath(hash: Hash, levels: nat, leaves: seq<Word>, n: nat, index: nat)
    requires 0 < levels < 32 && index < n <= |leaves| <= Pow2(levels)
    ensures var path := HonestPath(hash, leaves[..n], index, levels);
      path.commitment == leaves[index] && Fold(hash, path, levels) == StoredRoot(hash, levels, leaves, n)
  {
    hide Zeros, Node, Fold, Siblings;
    HonestPathFolds(hash, leaves[..n], index, HonestPath(hash, leaves[..n], index, levels), levels);
    AncestorAtTop(index, levels, levels);
  }

  // ------------------------------------------------------------ honest paths are genuine

  /** Two pairs hashed in trees the pool has had do not collide. */
  ghost predicate Apart(hash: Hash, leaves: seq<Word>, n: nat, a: nat, j: nat, m: nat, b: nat, k: nat)
    requires n <= |leaves| && m <= |leaves|
  {
    NoCollision(hash, NodePair(hash, leaves[..n], a, j), NodePair(hash, leaves[..m], b, k))
  }

  /**
   Hypotheses on the trees a pool has had, for those who want to withdraw: no two of their pairs
   collide, and neither a deposited commitment nor a hash of two leaves is the padding value.
   */
  ghost predicate OrdinaryTrees(hash: Hash, leaves: seq<Word>) {
    && (forall n: nat, a: nat, j: nat, m: nat, b: nat, k: nat | n <= |leaves| && m <= |leaves| && a < 32 && b < 32 ::
          Apart(hash, leaves, n, a, j, m, b, k))
    && ZERO_VALUE !in leaves
    && forall n: nat, j: nat | n <= |leaves| :: Node(hash, leaves[..n], 1, j) != ZERO_VALUE
  }

  /** What an honest path hashes at a level is the pair under the leaf's ancestor. */
  lemma HonestPair(hash: Hash, leaves: seq<Word>, index: nat, levels: nat, level: nat)
    requires index < |leaves| && level < levels
    ensures PathPair(hash, HonestPath(hash, leaves, index, levels), level) == NodePair(hash, leaves, level, Ancestor(index, level + 1))
  {
    hide Siblings, Fold, Node;
    var path, j := HonestPath(hash, leaves, index, levels), Ancestor(index, level);
    HonestPathFolds(hash, leaves, index, path, level);
    assert path.siblings[level] == Sibling(hash, leaves, level, j);
    assert if j % 2 == 0 then 2 * (j / 2) == j else 2 * (j / 2) == j - 1;
  }

  lemma HonestStepsDoNotCollide(hash: Hash, levels: nat, leaves: seq<Word>, n: nat, index: nat, m: nat, height: nat, shift: nat)
    requires index < n <= |leaves| && m <= |leaves| && shift + height <= levels < 32 && OrdinaryTrees(hash, leaves)
    ensures CollisionFree(hash, leaves[..m], HonestPath(hash, leaves[..n], index, levels), height, shift)
  {
    hide Siblings, Fold, Node, NodePair, NoCollision, Ancestor, PathPair;
    var path := HonestPath(hash, leaves[..n], index, levels);
    forall level: nat | level < height
      ensures StepCollisionFree(hash, leaves[..m], path, level, shift)
    {
      var j := Ancestor(index, shift + level + 1);
      HonestPair(hash, leaves[..n], index, levels, shift + level);
      assert Apart(hash, leaves, n, shift + level, j, m, level, j);
    }
  }

  /** The path of a deposited note is one that a proof can be made for. */
  lemma HonestPathIsGenuine(hash: Hash, levels: nat, leaves: seq<Word>, n: nat, index: nat)
    requires 0 < levels < 32 && index < n <= |leaves| <= Pow2(levels) && OrdinaryTrees(hash, leaves)
    ensures Genuine(hash, levels, leaves, HonestPath(hash, leaves[..n], index, levels))
  {
    hide Siblings, Fold, Node, CollisionFree, Apart, Ancestor, Pow2;
    var path := HonestPath(hash, leaves[..n], index, levels);
    HonestPathFolds(hash, leaves[..n], index, path, 1);
    HonestStepsDoNotCollide(hash, levels, leaves, n, index, 0, levels - 1, 1);
    assert leaves[..0] == [];
    forall m: nat | m <= |leaves|
      ensures CollisionFree(hash, leaves[..m], path, levels, 0)
    {
      HonestStepsDoNotCollide(hash, levels, leaves, n, index, m, levels, 0);
    }
  }
}
