/**
 A pool: deposits of one denomination, withdrawals by zero-knowledge proof.

 The proof system appears only through what an accepted proof shows, `MerklePath.Genuine`.
 Under that hypothesis the pool is solvent over every run: `Valid` is established by the
 constructor and kept by every operation.
 */
module Pool {
  import opened Common
  import opened MerkleTree
  import opened MerklePath

  datatype Withdrawal = Withdrawal(nullifierHash: Word, recipient: Address, relayer: Address, fee: nat)

  /** How the calls to other accounts go in one operation. */
  datatype Outcomes = Outcomes(
    transferFrom: bool,
    payRecipient: bool,
    payRelayer: bool,
    refundRecipient: bool,
    refundRelayer: bool)

  /** Adds to one account and to no other. */
  function Credit(ledger: map<Address, nat>, to: Address, amount: nat): (after: map<Address, nat>)
    ensures forall a :: Get(after, a) == Get(ledger, a) + if a == to then amount else 0
  {
    ledger[to := Get(ledger, to) + amount]
  }

  lemma CreditSum(ledger: map<Address, nat>, to: Address, amount: nat)
    ensures Sum(Credit(ledger, to, amount)) == Sum(ledger) + amount
  {
    SumUpdate(ledger, to, Get(ledger, to) + amount);
  }

  function Elements(s: seq<Word>): set<Word> {
    set x | x in s
  }

  ghost predicate HasNote(notes: set<Word>, nullifierOf: Word -> Word, nullifierHash: Word) {
    exists c :: c in notes && nullifierOf(c) == nullifierHash
  }

  /**
   Distinct nullifiers that all belong to some note are at most as many as the notes: no more
   can be spent than was deposited.
   */
  lemma {:induction false} SpentAtMostDeposited(spent: seq<Word>, notes: set<Word>, nullifierOf: Word -> Word)
    requires Distinct(spent)
    requires forall x :: x in spent ==> HasNote(notes, nullifierOf, x)
    ensures |spent| <= |notes|
  {
    if spent == [] {
    } else {
      var last := spent[|spent| - 1];
      assert last in spent;
      var c :| c in notes && nullifierOf(c) == last;
      var rest := spent[..|spent| - 1];
      forall x | x in rest
        ensures HasNote(notes - {c}, nullifierOf, x)
      {
        assert x in spent;
        var d :| d in notes && nullifierOf(d) == x;
        assert d in notes - {c};
      }
      SpentAtMostDeposited(rest, notes - {c}, nullifierOf);
    }
  }

  lemma {:induction false} DistinctCount(s: seq<Word>)
    requires Distinct(s)
    ensures |Elements(s)| == |s|
  {
    if s == [] {
    } else {
      var rest := s[..|s| - 1];
      DistinctCount(rest);
      assert Elements(s) == Elements(rest) + {s[|s| - 1]};
    }
  }

  lemma AppendDistinct(s: seq<Word>, x: Word)
    requires Distinct(s) && x !in Elements(s)
    ensures Distinct(s + [x]) && Elements(s + [x]) == Elements(s) + {x}
  {
    forall i, j | 0 <= i < j < |s| + 1
      ensures (s + [x])[i] != (s + [x])[j]
    {
      assert s[i] in Elements(s);
    }
  }

  // ------------------------------------------------------------ the books of a pool

  /** Everything a pool records, with the list of its withdrawals. */
  datatype Books = Books(
    commitments: set<Word>,
    nullifierHashes: set<Word>,
    holding: nat,
    paid: map<Address, nat>,
    withdrawals: seq<Withdrawal>)

  function Spent(ws: seq<Withdrawal>): (s: seq<Word>)
    ensures |s| == |ws|
  {
    if ws == [] then [] else Spent(ws[..|ws| - 1]) + [ws[|ws| - 1].nullifierHash]
  }

  /**
   The accounting identity of a pool: what it holds is one denomination per unspent deposit, what
   it paid out is one denomination per withdrawal and to every account its shares, and no
   nullifier was paid twice.
   */
  ghost predicate Solvent(leaves: seq<Word>, nullifierOf: Word -> Word, denomination: nat, b: Books) {
    && Distinct(leaves) && b.commitments == Elements(leaves)
    && Distinct(Spent(b.withdrawals)) && b.nullifierHashes == Elements(Spent(b.withdrawals))
    && (forall x :: x in b.nullifierHashes ==> HasNote(b.commitments, nullifierOf, x))
    && |b.withdrawals| <= |leaves|
    && b.holding == denomination * (|leaves| - |b.withdrawals|)
    && Sum(b.paid) == denomination * |b.withdrawals|
    && (forall a :: Get(b.paid, a) == ShareOf(b.withdrawals, denomination, a))
  }

  /** What the withdrawals pay one account: the rest as recipient, the fee as relayer. */
  function ShareOf(ws: seq<Withdrawal>, denomination: nat, a: Address): int {
    if ws == [] then 0 else
      var w := ws[|ws| - 1];
      ShareOf(ws[..|ws| - 1], denomination, a)
      + (if a == w.recipient then denomination - w.fee else 0) + (if a == w.relayer then w.fee else 0)
  }

  function DepositBooks(b: Books, denomination: nat, commitment: Word): Books {
    b.(commitments := b.commitments + {commitment}, holding := b.holding + denomination)
  }

  lemma DepositKeepsSolvent(leaves: seq<Word>, nullifierOf: Word -> Word, denomination: nat, b: Books, commitment: Word)
    requires Solvent(leaves, nullifierOf, denomination, b) && commitment !in b.commitments
    ensures Solvent(leaves + [commitment], nullifierOf, denomination, DepositBooks(b, denomination, commitment))
  {
    AppendDistinct(leaves, commitment);
    var notes := b.commitments + {commitment};
    forall x | x in b.nullifierHashes
      ensures HasNote(notes, nullifierOf, x)
    {
      var c :| c in b.commitments && nullifierOf(c) == x;
      assert c in notes;
    }
    var unspent := |leaves| - |b.withdrawals|;
    assert denomination * (unspent + 1) == denomination * unspent + denomination;
  }

  /** The nullifiers after one more note is spent: distinct, each of a deposited note, and no more than those. */
  lemma SpendingANote(leaves: seq<Word>, nullifierOf: Word -> Word, spent: seq<Word>, nullifierHash: Word, commitment: Word)
    requires Distinct(leaves) && Distinct(spent) && nullifierHash !in Elements(spent)
    requires forall x :: x in Elements(spent) ==> HasNote(Elements(leaves), nullifierOf, x)
    requires commitment in leaves && nullifierOf(commitment) == nullifierHash
    ensures Distinct(spent + [nullifierHash]) && Elements(spent + [nullifierHash]) == Elements(spent) + {nullifierHash}
    ensures forall x :: x in Elements(spent + [nullifierHash]) ==> HasNote(Elements(leaves), nullifierOf, x)
    ensures |spent| + 1 <= |leaves|
  {
    hide Distinct;
    AppendDistinct(spent, nullifierHash);
    assert commitment in Elements(leaves);
    forall x | x in spent + [nullifierHash]
      ensures HasNote(Elements(leaves), nullifierOf, x)
    {
      assert x in Elements(spent + [nullifierHash]);
    }
    SpentAtMostDeposited(spent + [nullifierHash], Elements(leaves), nullifierOf);
    DistinctCount(leaves);
  }

  lemma OneMoreSpent(denomination: nat, deposits: nat, spent: nat)
    requires spent < deposits
    ensures denomination * (deposits - spent) >= denomination
    ensures denomination * (deposits - (spent + 1)) == denomination * (deposits - spent) - denomination
    ensures denomination * (spent + 1) == denomination * spent + denomination
  {
    assert denomination * (deposits - (spent + 1)) >= 0;
  }

  /** A withdrawal of a deposited, unspent note is covered. */
  lemma WithdrawIsCovered(leaves: seq<Word>, nullifierOf: Word -> Word, denomination: nat, b: Books,
                          nullifierHash: Word, commitment: Word)
    requires Solvent(leaves, nullifierOf, denomination, b) && nullifierHash !in b.nullifierHashes
    requires commitment in leaves && nullifierOf(commitment) == nullifierHash
    ensures b.holding >= denomination && |b.withdrawals| < |leaves|
  {
    hide Distinct, Elements, HasNote, Spent, Sum, ShareOf;
    SpendingANote(leaves, nullifierOf, Spent(b.withdrawals), nullifierHash, commitment);
    OneMoreSpent(denomination, |leaves|, |b.withdrawals|);
  }

  /** `after` is `b` with one more withdrawal, paid out in full: a denomination, split between recipient and relayer. */
  ghost predicate PaidOut(b: Books, after: Books, denomination: nat, w: Withdrawal) {
    && after.commitments == b.commitments
    && after.nullifierHashes == b.nullifierHashes + {w.nullifierHash}
    && after.withdrawals == b.withdrawals + [w]
    && after.holding + denomination == b.holding
    && Sum(after.paid) == Sum(b.paid) + denomination
    && forall a :: Get(after.paid, a) == Get(b.paid, a)
         + (if a == w.recipient then denomination - w.fee else 0) + (if a == w.relayer then w.fee else 0)
  }

  /** It keeps the books. */
  lemma WithdrawKeepsSolvent(leaves: seq<Word>, nullifierOf: Word -> Word, denomination: nat, b: Books, after: Books,
                             w: Withdrawal, commitment: Word)
    requires Solvent(leaves, nullifierOf, denomination, b) && PaidOut(b, after, denomination, w)
    requires w.nullifierHash !in b.nullifierHashes
    requires commitment in leaves && nullifierOf(commitment) == w.nullifierHash
    ensures Solvent(leaves, nullifierOf, denomination, after)
  {
    var next := b.withdrawals + [w];
    assert next[..|b.withdrawals|] == b.withdrawals;
    assert Spent(next) == Spent(b.withdrawals) + [w.nullifierHash];
    hide Distinct, Elements, HasNote, Spent, Sum, Get;
    SpendingANote(leaves, nullifierOf, Spent(b.withdrawals), w.nullifierHash, commitment);
    OneMoreSpent(denomination, |leaves|, |b.withdrawals|);
  }

  class TornadoPool {
    const tree: MerkleTreeWithHistory
    const denomination: nat
    /** The token of an ERC-20 pool; none for an ETH pool. */
    const token: Option<Address>
    /** The nullifier hash a commitment fixes. */
    ghost const nullifierOf: Word -> Word

    var commitments: set<Word>
    var nullifierHashes: set<Word>
    /** What the pool holds of its asset on account of deposits. */
    var holding: nat
    /** What the pool has paid out of its asset, by account. */
    var paid: map<Address, nat>
    /** ETH passed through by ERC-20 withdrawals, by account. */
    var refunded: map<Address, nat>

    ghost var withdrawals: seq<Withdrawal>

    ghost function State(): Books
      reads this
    {
      Books(commitments, nullifierHashes, holding, paid, withdrawals)
    }

    ghost predicate Valid()
      reads this, tree
    {
      && tree.Valid()
      && ZeroTableCorrect(tree.hasher)
      && denomination > 0
      && Solvent(tree.leaves, nullifierOf, denomination, State())
    }

    constructor (hasher: Hash, denomination: nat, levels: nat, token: Option<Address>, ghost nullifierOf: Word -> Word)
      requires 0 < levels < 32 && denomination > 0 && ZeroTableCorrect(hasher)
      ensures Valid() && fresh(tree)
      ensures tree.leaves == [] && withdrawals == [] && refunded == map[]
    {
      tree := new MerkleTreeWithHistory(levels, hasher);
      this.denomination := denomination;
      this.token := token;
      this.nullifierOf := nullifierOf;
      commitments, nullifierHashes := {}, {};
      holding, paid, refunded := 0, map[], map[];
      withdrawals := [];
    }

    /**
     Takes one deposit. A failed check undoes everything, so the payment is checked before the
     insert here. Accepted exactly when the commitment is new, a field element, fits and is paid for.
     */
    method Deposit(commitment: Word, value: nat, outcomes: Outcomes) returns (ok: bool)
      requires Valid()
      modifies this, tree
      ensures Valid()
      ensures FieldClosed(tree.hasher) ==>
        (ok <==>
          && commitment !in old(commitments)
          && |old(tree.leaves)| < Pow2(tree.levels) && InField(commitment)
          && (if token.None? then value == denomination else value == 0 && outcomes.transferFrom))
      ensures !ok ==> unchanged(this) && unchanged(tree)
      ensures ok ==>
        && tree.leaves == old(tree.leaves) + [commitment]
        && commitments == old(commitments) + {commitment} && nullifierHashes == old(nullifierHashes)
        && holding == old(holding) + denomination && paid == old(paid) && refunded == old(refunded)
        && withdrawals == old(withdrawals)
    {
      hide Solvent, ZeroTableCorrect, FieldClosed;
      if commitment in commitments {
        return false;
      }
      // _processDeposit
      if token.None? {
        if value != denomination {
          return false;
        }
      } else if value != 0 || !outcomes.transferFrom {
        return false;
      }
      DepositKeepsSolvent(tree.leaves, nullifierOf, denomination, State(), commitment);
      var index := tree.Insert(commitment);
      if index.None? {
        return false;
      }
      commitments := commitments + {commitment};
      holding := holding + denomination;
      return true;
    }

    /** Pays the recipient, the relayer and, in an ERC-20 pool, the ETH refund; a failed call reverts. */
    method ProcessWithdraw(w: Withdrawal, refund: nat, value: nat, outcomes: Outcomes) returns (ok: bool)
      requires w.fee <= denomination <= holding
      modifies `holding, `paid, `refunded
      ensures ok <==>
        && outcomes.payRecipient && (w.fee > 0 ==> outcomes.payRelayer)
        && (token.None? ==> value == 0 && refund == 0)
        && (token.Some? ==> value == refund && (refund > 0 ==> outcomes.refundRecipient || outcomes.refundRelayer))
      ensures !ok ==> unchanged(this)
      ensures ok ==>
        && holding == old(holding) - denomination
        && (forall a :: Get(paid, a) == old(Get(paid, a))
              + (if a == w.recipient then denomination - w.fee else 0) + (if a == w.relayer then w.fee else 0))
        && (forall a :: Get(refunded, a) == old(Get(refunded, a))
              + (if a == (if outcomes.refundRecipient then w.recipient else w.relayer) then refund else 0))
        && Sum(paid) == old(Sum(paid)) + denomination
    {
      hide Credit;
      CreditSum(paid, w.recipient, denomination - w.fee);
      CreditSum(Credit(paid, w.recipient, denomination - w.fee), w.relayer, w.fee);
      if token.None? {
        if value != 0 || refund != 0 {
          return false;
        }
      } else if value != refund {
        return false;
      }
      if !outcomes.payRecipient || (w.fee > 0 && !outcomes.payRelayer) {
        return false;
      }
      if refund > 0 && !outcomes.refundRecipient && !outcomes.refundRelayer {
        return false;
      }
      holding := holding - (denomination - w.fee);
      paid := Credit(paid, w.recipient, denomination - w.fee);
      holding := holding - w.fee;
      paid := Credit(paid, w.relayer, w.fee);
      refunded := Credit(refunded, if outcomes.refundRecipient then w.recipient else w.relayer, refund);
      return true;
    }

    /**
     Pays out one note. `path` is what the accepted proof shows. Accepted exactly when the fee
     fits, the nullifier is unspent, the root is recent, the proof passes and the payments go
     through; the holding always covers an accepted withdrawal.
     */
    method Withdraw(proofPasses: bool, root: Word, w: Withdrawal, refund: nat, value: nat, outcomes: Outcomes,
                    ghost path: Path)
      returns (ok: bool)
      requires Valid()
      requires proofPasses ==>
        && Genuine(tree.hasher, tree.levels, tree.leaves, path)
        && Fold(tree.hasher, path, tree.levels) == root
        && nullifierOf(path.commitment) == w.nullifierHash
      modifies this
      ensures Valid()
      ensures ok <==>
        && w.fee <= denomination
        && w.nullifierHash !in old(nullifierHashes)
        && root != 0 && root in Recent(tree.Roots())
        && proofPasses
        && outcomes.payRecipient && (w.fee > 0 ==> outcomes.payRelayer)
        && (token.None? ==> value == 0 && refund == 0)
        && (token.Some? ==> value == refund && (refund > 0 ==> outcomes.refundRecipient || outcomes.refundRelayer))
      ensures !ok ==> unchanged(this)
      ensures ok ==>
        && path.commitment in tree.leaves
        && commitments == old(commitments) && nullifierHashes == old(nullifierHashes) + {w.nullifierHash}
        && old(holding) >= denomination && holding == old(holding) - denomination
        && withdrawals == old(withdrawals) + [w]
        && (forall a :: Get(paid, a) == old(Get(paid, a))
              + (if a == w.recipient then denomination - w.fee else 0) + (if a == w.relayer then w.fee else 0))
        && (forall a :: Get(refunded, a) == old(Get(refunded, a))
              + (if a == (if outcomes.refundRecipient then w.recipient else w.relayer) then refund else 0))
    {
      hide Solvent, ZeroTableCorrect, Genuine, Fold, Recent, Credit, Node, RingHolds, Cached, Distinct, History, Sum, Get;
      var known, _ := tree.IsKnownRoot(root);
      if w.fee > denomination || w.nullifierHash in nullifierHashes || !known || !proofPasses {
        return false;
      }
      PathIsDeposited(root, path);
      ghost var before := State();
      WithdrawIsCovered(tree.leaves, nullifierOf, denomination, before, w.nullifierHash, path.commitment);
      ok := ProcessWithdraw(w, refund, value, outcomes);
      if ok {
        nullifierHashes := nullifierHashes + {w.nullifierHash};
        withdrawals := withdrawals + [w];
        WithdrawKeepsSolvent(tree.leaves, nullifierOf, denomination, before, State(), w, path.commitment);
      }
    }

    lemma PathIsDeposited(root: Word, path: Path)
      requires Valid() && root in Recent(tree.Roots())
      requires Genuine(tree.hasher, tree.levels, tree.leaves, path)
      requires Fold(tree.hasher, path, tree.levels) == root
      ensures path.commitment in tree.leaves
    {
      var n :| 0 <= n < |tree.Roots()| && tree.Roots()[n] == root;
      HistoryAt(tree.hasher, tree.levels, tree.leaves, n);
      AcceptedNoteWasDeposited(tree.hasher, tree.levels, tree.leaves, n, path);
    }

    /**
     Every deposited note can be withdrawn: against any of the recent roots stored since its deposit
     there is a path with which `Withdraw` is called as its proof demands, and its root check passes.
     What remains is that the nullifier is unspent, the fee fits and the payments go through.
     */
    lemma DepositedNoteIsWithdrawable(index: nat, n: nat)
      requires Valid() && OrdinaryTrees(tree.hasher, tree.leaves)
      requires index < n <= |tree.leaves| < n + ROOT_HISTORY_SIZE
      ensures var root := TreeRoot(tree.hasher, tree.leaves[..n], tree.levels);
        var path := HonestPath(tree.hasher, tree.leaves[..n], index, tree.levels);
        && root in Recent(tree.Roots())
        && Genuine(tree.hasher, tree.levels, tree.leaves, path)
        && Fold(tree.hasher, path, tree.levels) == root
        && nullifierOf(path.commitment) == nullifierOf(tree.leaves[index])
    {
      hide Genuine, Node, Fold, Siblings, OrdinaryTrees, ZeroTableCorrect, Solvent, Cached, RingHolds, History, Zeros;
      HonestPathIsGenuine(tree.hasher, tree.levels, tree.leaves, n, index);
      DepositedNoteHasPath(tree.hasher, tree.levels, tree.leaves, n, index);
      HistoryAt(tree.hasher, tree.levels, tree.leaves, n);
      var roots := tree.Roots();
      assert roots[n] == Recent(roots)[if |roots| <= ROOT_HISTORY_SIZE then n else n - (|roots| - ROOT_HISTORY_SIZE)];
    }
  }
}
