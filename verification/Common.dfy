/** Types and facts shared by every component of the model. */
module Common {
  datatype Option<+T> = None | Some(value: T)

  datatype Result<+T> = Ok(value: T) | Err

  /** A `bytes32` or `uint256` as a number; its width appears only where the code depends on it. */
  type Word = nat

  /** An address; zero is the null address. */
  type Address = nat

  /** The terms that the relayer signs for one operation. */
  datatype FeeTerms = FeeTerms(
    validUntil: nat,
    validAfter: nat,
    fee: nat,
    serviceFee: nat,
    refundTo: Address,
    feeToken: Address,
    tokenPerEth: nat,
    withdrawalHash: Word,
    senderImplementation: Address)

  function Pow2(n: nat): (p: nat)
    ensures p > 0
  {
    if n == 0 then 1 else 2 * Pow2(n - 1)
  }

  /** A Solidity mapping read: keys never written hold zero. */
  function Get<K>(m: map<K, nat>, k: K): nat {
    if k in m then m[k] else 0
  }

  /** No element occurs twice. */
  ghost predicate Distinct<T>(s: seq<T>) {
    forall i, j | 0 <= i < j < |s| :: s[i] != s[j]
  }

  // ------------------------------------------------------------ products and quotients

  lemma MulMonotone(a: nat, b: nat, c: nat, d: nat)
    requires a <= c && b <= d
    ensures a * b <= c * d
  {
    assert a * b <= c * b;
    assert c * b <= c * d;
  }

  lemma QuotientIs(a: nat, b: nat, q: nat, r: nat)
    requires a == b * q + r && r < b
    ensures a / b == q
  {
    var p := a / b;
    assert b * p <= a < b * (p + 1);
    if p < q {
      MulMonotone(b, p + 1, b, q);
    } else if p > q {
      MulMonotone(b, q + 1, b, p);
    }
  }

  // ------------------------------------------------------------ sums over mappings

  /** The sum of the values of a mapping. */
  ghost function Sum<K>(m: map<K, nat>): nat
    decreases |m|
  {
    if m == map[] then 0 else
      var k :| k in m;
      m[k] + Sum(m - {k})
  }

  /** Any key may be taken out first. */
  lemma {:induction false} SumSplit<K>(m: map<K, nat>, k: K)
    requires k in m
    ensures Sum(m) == m[k] + Sum(m - {k})
    decreases |m|
  {
    var c :| c in m && Sum(m) == m[c] + Sum(m - {c});
    if c != k {
      SumSplit(m - {c}, k);
      SumSplit(m - {k}, c);
      assert (m - {c}) - {k} == (m - {k}) - {c};
    }
  }

  lemma SumUpdate<K>(m: map<K, nat>, k: K, v: nat)
    ensures Sum(m[k := v]) == Sum(m) - Get(m, k) + v
  {
    SumSplit(m[k := v], k);
    assert m[k := v] - {k} == m - {k};
    if k in m {
      SumSplit(m, k);
    } else {
      assert m - {k} == m;
    }
  }

  lemma PartOfSum<K>(m: map<K, nat>, k: K)
    ensures Get(m, k) <= Sum(m)
  {
    SumUpdate(m, k, 0);
  }

  /** The sum over some keys, and the sum with those keys set to zero. */
  lemma {:induction false} SumParts<K>(m: map<K, nat>, part: set<K>)
    ensures Sum(m) == Sum(map k | k in m && k in part :: m[k]) + Sum(map k | k in m :: if k in part then 0 else m[k])
    decreases |m|
  {
    var inside := map k | k in m && k in part :: m[k];
    var outside := map k | k in m :: if k in part then 0 else m[k];
    if m == map[] {
      assert inside == map[] && outside == map[];
    } else {
      var c :| c in m;
      SumSplit(m, c);
      SumParts(m - {c}, part);
      assert outside - {c} == map k | k in m - {c} :: if k in part then 0 else (m - {c})[k];
      SumSplit(outside, c);
      assert inside - {c} == map k | k in m - {c} && k in part :: (m - {c})[k];
      if c in part {
        SumSplit(inside, c);
      } else {
        assert inside - {c} == inside;
      }
    }
  }

  /** A mapping that is pointwise at most another has at most its sum. */
  lemma {:induction false} SumMonotone<K>(a: map<K, nat>, b: map<K, nat>)
    requires forall k :: k in a ==> k in b && a[k] <= b[k]
    ensures Sum(a) <= Sum(b)
    decreases |a|
  {
    if a == map[] {
    } else {
      var k :| k in a;
      SumSplit(a, k);
      SumSplit(b, k);
      SumMonotone(a - {k}, b - {k});
    }
  }
}
