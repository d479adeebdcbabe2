/**
 The instance registry of the DAO sandbox: a mapping from pools to their settings, and a list of
 the enabled ones that removal keeps dense by moving the last entry into the gap.
 */
module InstanceRegistry {
  import opened Common

  datatype Instance = Instance(isErc20: bool, token: Address, enabled: bool, swappingFee: Word, protocolFee: Word)

  /** What a mapping holds for pools never written. */
  const BLANK := Instance(false, 0, false, 0, 0)

  function Lookup(instances: map<Address, Instance>, pool: Address): Instance {
    if pool in instances then instances[pool] else BLANK
  }

  /** The list names every enabled pool once, and nothing else. */
  ghost predicate Indexes(ids: seq<Address>, instances: map<Address, Instance>) {
    && Distinct(ids)
    && (forall pool :: pool in ids <==> Lookup(instances, pool).enabled)
  }

  /** Moves the last entry to position `i` and drops the last. */
  function SwapRemove(ids: seq<Address>, i: nat): seq<Address>
    requires i < |ids|
  {
    ids[i := ids[|ids| - 1]][..|ids| - 1]
  }

  /** One occurrence of the entry goes, all others stay, and no entry but the last has moved. */
  lemma SwapRemoveTakesOne(ids: seq<Address>, i: nat)
    requires i < |ids|
    ensures multiset(SwapRemove(ids, i)) == multiset(ids) - multiset{ids[i]}
    ensures forall k | 0 <= k < |ids| - 1 && k != i :: SwapRemove(ids, i)[k] == ids[k]
  {
    var last := |ids| - 1;
    var front := ids[..last];
    assert ids == front + [ids[last]];
    if i < last {
      assert SwapRemove(ids, i) == front[i := ids[last]];
    } else {
      assert SwapRemove(ids, i) == front;
    }
  }

  lemma RemovalKeepsIndex(ids: seq<Address>, instances: map<Address, Instance>, i: nat)
    requires i < |ids| && Indexes(ids, instances)
    ensures Indexes(SwapRemove(ids, i), instances - {ids[i]})
  {
    var rest := SwapRemove(ids, i);
    forall pool
      ensures pool in rest <==> Lookup(instances - {ids[i]}, pool).enabled
    {
      if pool in ids && pool != ids[i] {
        var k :| 0 <= k < |ids| && ids[k] == pool;
        assert rest[if k == |ids| - 1 then i else k] == pool;
      }
    }
  }

  class SandboxInstanceRegistry {
    const governance: Address
    var instances: map<Address, Instance>
    var instanceIds: seq<Address>

    ghost predicate Valid()
      reads this
    {
      Indexes(instanceIds, instances)
    }

    constructor (governance: Address)
      ensures Valid() && this.governance == governance && instances == map[] && instanceIds == []
      ensures forall pool :: Lookup(instances, pool) == Instance(false, 0, false, 0, 0)
    {
      this.governance := governance;
      instances, instanceIds := map[], [];
    }

    /** `poolToken` is the token the pool itself reports. */
    method UpdateInstance(caller: Address, pool: Address, instance: Instance, poolToken: Address) returns (ok: bool)
      requires Valid()
      modifies `instances, `instanceIds
      ensures Valid()
      ensures ok <==> caller == governance && instance.enabled && (instance.isErc20 ==> poolToken == instance.token)
      ensures instances == if ok then old(instances)[pool := instance] else old(instances)
      ensures instanceIds == if ok && !Lookup(old(instances), pool).enabled then old(instanceIds) + [pool] else old(instanceIds)
    {
      if caller != governance || !instance.enabled || (instance.isErc20 && poolToken != instance.token) {
        return false;
      }
      if !Lookup(instances, pool).enabled {
        instanceIds := instanceIds + [pool];
      }
      instances := instances[pool := instance];
      return true;
    }

    method RemoveInstance(caller: Address, id: nat) returns (ok: bool)
      requires Valid()
      modifies `instances, `instanceIds
      ensures Valid()
      ensures ok <==> caller == governance && id < |old(instanceIds)|
      ensures ok ==>
        && instances == old(instances) - {old(instanceIds)[id]}
        && Lookup(instances, old(instanceIds)[id]) == Instance(false, 0, false, 0, 0)
        && |instanceIds| == |old(instanceIds)| - 1
        && multiset(instanceIds) == multiset(old(instanceIds)) - multiset{old(instanceIds)[id]}
        && (forall k | 0 <= k < |instanceIds| && k != id :: instanceIds[k] == old(instanceIds)[k])
      ensures !ok ==> instances == old(instances) && instanceIds == old(instanceIds)
    {
      if caller != governance || id >= |instanceIds| {
        return false;
      }
      RemovalKeepsIndex(instanceIds, instances, id);
      SwapRemoveTakesOne(instanceIds, id);
      instances := instances - {instanceIds[id]};
      instanceIds := instanceIds[id := instanceIds[|instanceIds| - 1]];
      instanceIds := instanceIds[..|instanceIds| - 1];
      return true;
    }

    /** Also accepted for a pool that is not enabled, which stays disabled. */
    method SetProtocolFee(caller: Address, pool: Address, newFee: Word) returns (ok: bool)
      requires Valid()
      modifies `instances
      ensures Valid()
      ensures ok <==> caller == governance
      ensures forall p | !ok || p != pool :: Lookup(instances, p) == Lookup(old(instances), p)
      ensures ok ==> Lookup(instances, pool) == Lookup(old(instances), pool).(protocolFee := newFee)
    {
      if caller != governance {
        return false;
      }
      instances := instances[pool := Lookup(instances, pool).(protocolFee := newFee)];
      return true;
    }
  }
}
