/**
 The relayer registry of the DAO sandbox: masters with a stake, and workers that act for them.
 A call that the contract reverts returns false and changes nothing. Token transfers, the ENS owner
 and the protocol fee are decided by other contracts and are parameters.
 */
module RelayerRegistry {
  import opened Common

  type Workers = map<Address, Address>

  predicate IsMaster(workers: Workers, a: Address) {
    a != 0 && Get(workers, a) == a
  }

  /** Whoever a registered address acts for is a master. */
  ghost predicate Resolves(workers: Workers) {
    forall w :: Get(workers, w) != 0 ==> IsMaster(workers, Get(workers, w))
  }

  /** Besides the null address, only masters hold a stake. */
  ghost predicate OnlyMastersHold(workers: Workers, balances: map<Address, nat>) {
    forall a :: a != 0 && Get(balances, a) != 0 ==> IsMaster(workers, a)
  }

  /** None of the addresses is taken, and none is listed twice. */
  ghost predicate AllFree(workers: Workers, list: seq<Address>) {
    Distinct(list) && forall w | w in list :: Get(workers, w) == 0
  }

  /** `after` is `before` with the listed addresses acting for `relayer`. */
  ghost predicate Linked(before: Workers, after: Workers, relayer: Address, list: seq<Address>) {
    forall a :: Get(after, a) == if a in list then relayer else Get(before, a)
  }

  lemma LinkingResolves(before: Workers, after: Workers, relayer: Address, list: seq<Address>)
    requires Resolves(before) && Linked(before, after, relayer, list)
    requires IsMaster(after, relayer) && forall w | w in list :: w == relayer || Get(before, w) == 0
    ensures Resolves(after)
    ensures forall m :: IsMaster(before, m) ==> IsMaster(after, m)
  {
    forall w | Get(after, w) != 0
      ensures IsMaster(after, Get(after, w))
    {
      if w !in list {
        assert IsMaster(before, Get(before, w));
      }
    }
  }

  class SandboxRelayerRegistry {
    const governance: Address
    var router: Address
    var minStake: nat
    var balances: map<Address, nat>
    var ensHashes: map<Address, Word>
    var workers: Workers

    /** Everything ever staked, burnt and nullified. */
    ghost var added: nat
    ghost var burnt: nat
    ghost var nullified: nat

    /** Every unit of stake ever added is held, burnt or nullified. */
    ghost predicate Valid()
      reads this
    {
      && Resolves(workers)
      && OnlyMastersHold(workers, balances)
      && added == Sum(balances) + burnt + nullified
    }

    constructor (governance: Address)
      ensures Valid() && workers == map[] && balances == map[] && ensHashes == map[]
      ensures added == burnt == nullified == 0
      ensures this.governance == governance && router == 0 && minStake == 0
    {
      this.governance := governance;
      router, minStake := 0, 0;
      balances, ensHashes, workers := map[], map[], map[];
      added, burnt, nullified := 0, 0, 0;
    }

    /**
     Registers a new master with its stake and first workers. The token refuses transfers from the
     null address.
     */
    method Register(relayer: Address, ensHash: Word, owner: Address, stake: nat, transferred: bool, list: seq<Address>) returns (ok: bool)
      requires Valid() && (transferred ==> relayer != 0)
      modifies `balances, `ensHashes, `workers, `added
      ensures Valid()
      ensures ok <==>
        && relayer == owner && transferred && stake >= minStake
        && old(Get(workers, relayer)) == 0 && old(Get(ensHashes, relayer)) == 0
        && relayer !in list && Distinct(list) && forall w | w in list :: old(Get(workers, w)) == 0
      ensures forall m :: IsMaster(old(workers), m) ==> IsMaster(workers, m)
      ensures ok ==>
        && relayer != 0 && forall a :: Get(workers, a) == if a == relayer || a in list then relayer else old(Get(workers, a))
      ensures ok ==>
        && old(Get(balances, relayer)) == 0 && balances == old(balances)[relayer := stake]
        && ensHashes == old(ensHashes)[relayer := ensHash] && added == old(added) + stake
      ensures !ok ==> workers == old(workers) && balances == old(balances) && ensHashes == old(ensHashes) && added == old(added)
    {
      if relayer != owner || Get(workers, relayer) != 0 || Get(ensHashes, relayer) != 0 || stake < minStake || !transferred {
        return false;
      }
      var linked: Workers := workers[relayer := relayer];
      for i := 0 to |list|
        invariant Linked(workers, linked, relayer, [relayer] + list[..i])
        invariant relayer !in list[..i] && AllFree(workers, list[..i])
      {
        assert list[..i + 1] == list[..i] + [list[i]];
        if Get(linked, list[i]) != 0 {
          assert list[i] in [relayer] + list[..i] || Get(workers, list[i]) != 0;
          assert list[i] in list;
          return false;
        }
        linked := linked[list[i] := relayer];
      }
      assert list[..|list|] == list;
      LinkingResolves(workers, linked, relayer, [relayer] + list);
      SumUpdate(balances, relayer, stake);
      workers := linked;
      balances := balances[relayer := stake];
      ensHashes := ensHashes[relayer := ensHash];
      added := added + stake;
      return true;
    }

    /** Anyone acting for a relayer may add a free address; with no relayer the call changes nothing. */
    method RegisterWorker(sender: Address, relayer: Address, worker: Address) returns (ok: bool)
      requires Valid()
      modifies `workers
      ensures Valid()
      ensures ok <==> old(Get(workers, sender)) == relayer && old(Get(workers, worker)) == 0
      ensures forall m :: IsMaster(old(workers), m) ==> IsMaster(workers, m)
      ensures ok ==> forall a :: Get(workers, a) == if a == worker then relayer else old(Get(workers, a))
      ensures !ok ==> workers == old(workers)
    {
      if Get(workers, sender) != relayer || Get(workers, worker) != 0 {
        return false;
      }
      assert relayer != 0 ==> IsMaster(workers, relayer);
      if relayer != 0 {
        LinkingResolves(workers, workers[worker := relayer], relayer, [worker]);
      } else {
        ghost var after := workers[worker := 0];
        assert forall a :: Get(after, a) == Get(workers, a);
        assert forall w :: Get(after, w) != 0 ==> IsMaster(workers, Get(workers, w)) && IsMaster(after, Get(after, w));
      }
      workers := workers[worker := relayer];
      return true;
    }

    /** A worker leaves, or its master removes it; a master can never be removed. */
    method UnregisterWorker(sender: Address, worker: Address) returns (ok: bool)
      requires Valid()
      modifies `workers
      ensures Valid()
      ensures ok <==> old(Get(workers, worker)) != worker && (worker == sender || old(Get(workers, worker)) == sender)
      ensures forall m :: IsMaster(old(workers), m) ==> IsMaster(workers, m)
      ensures ok ==> forall a :: Get(workers, a) == if a == worker then 0 else old(Get(workers, a))
      ensures !ok ==> workers == old(workers)
    {
      if (worker != sender && Get(workers, worker) != sender) || Get(workers, worker) == worker {
        return false;
      }
      ghost var before := workers;
      workers := workers[worker := 0];
      assert forall w :: Get(workers, w) != 0 ==> IsMaster(before, Get(before, w));
      return true;
    }

    /** The null address counts as registered until someone takes it as a worker. */
    method StakeToRelayer(relayer: Address, stake: nat, transferred: bool) returns (ok: bool)
      requires Valid()
      modifies `balances, `added
      ensures Valid()
      ensures ok <==> Get(workers, relayer) == relayer && transferred
      ensures if ok
        then balances == old(balances)[relayer := old(Get(balances, relayer)) + stake] && added == old(added) + stake
        else balances == old(balances) && added == old(added)
    {
      if Get(workers, relayer) != relayer || !transferred {
        return false;
      }
      SumUpdate(balances, relayer, stake + Get(balances, relayer));
      balances := balances[relayer := stake + Get(balances, relayer)];
      added := added + stake;
      return true;
    }

    /** Takes the protocol fee of a withdrawal from the stake; unregistered senders pay nothing. */
    method Burn(caller: Address, sender: Address, relayer: Address, toBurn: nat) returns (ok: bool)
      requires Valid()
      modifies `balances, `burnt
      ensures Valid()
      ensures ok <==>
        && caller == router
        && (Get(workers, sender) == 0 ==> Get(workers, relayer) == 0)
        && (Get(workers, sender) != 0 ==> Get(workers, sender) == relayer && toBurn <= old(Get(balances, relayer)))
      ensures if ok && Get(workers, sender) != 0
        then
          && IsMaster(workers, relayer)
          && balances == old(balances)[relayer := old(Get(balances, relayer)) - toBurn] && burnt == old(burnt) + toBurn
        else balances == old(balances) && burnt == old(burnt)
    {
      if caller != router {
        return false;
      }
      var master := Get(workers, sender);
      if master == 0 {
        return Get(workers, relayer) == 0;
      }
      if master != relayer || Get(balances, relayer) < toBurn {
        return false;
      }
      SumUpdate(balances, relayer, Get(balances, relayer) - toBurn);
      balances := balances[relayer := Get(balances, relayer) - toBurn];
      burnt := burnt + toBurn;
      return true;
    }

    method NullifyBalance(caller: Address, relayer: Address) returns (ok: bool)
      requires Valid()
      modifies `balances, `nullified
      ensures Valid()
      ensures ok <==> caller == governance && Get(workers, relayer) == relayer
      ensures if ok
        then balances == old(balances)[relayer := 0] && nullified == old(nullified) + old(Get(balances, relayer))
        else balances == old(balances) && nullified == old(nullified)
    {
      if caller != governance || relayer != Get(workers, relayer) {
        return false;
      }
      SumUpdate(balances, relayer, 0);
      nullified := nullified + Get(balances, relayer);
      balances := balances[relayer := 0];
      return true;
    }

    method SetMinStakeAmount(caller: Address, amount: nat) returns (ok: bool)
      modifies `minStake
      ensures ok <==> caller == governance
      ensures minStake == if ok then amount else old(minStake)
    {
      ok := caller == governance;
      minStake := if ok then amount else minStake;
    }

    method SetTornadoRouter(caller: Address, newRouter: Address) returns (ok: bool)
      modifies `router
      ensures ok <==> caller == governance
      ensures router == if ok then newRouter else old(router)
    {
      ok := caller == governance;
      router := if ok then newRouter else router;
    }
  }
}
