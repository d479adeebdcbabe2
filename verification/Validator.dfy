/**
 Which account calls the relayer sponsors.

 ABI decoding is left abstract: `Decoders` says what a call's data decodes to against the
 paymaster's and the pool's interface.
 */
module Validator {
  import opened Common

  /** Call data, never looked into except through the decoders. */
  type Data = seq<nat>

  datatype AccountCall = AccountCall(target: Address, value: nat, data: Data)

  /** The arguments of `relayWithdraw`; the pool's own `withdraw` takes the pool from the target. */
  datatype WithdrawArgs = WithdrawArgs(
    pool: Address,
    proof: Data,
    root: Word,
    nullifierHash: Word,
    recipient: Address,
    relayer: Address,
    fee: nat)

  datatype Decoded<A> = NotOfInterface | OtherFunction | Withdraw(args: A)

  /** What `pool.withdraw` carries besides the pool itself. */
  datatype DirectArgs = DirectArgs(
    proof: Data,
    root: Word,
    nullifierHash: Word,
    recipient: Address,
    relayer: Address,
    fee: nat,
    refund: nat)

  datatype Decoders = Decoders(
    paymasterCall: Data -> Decoded<WithdrawArgs>,
    poolCall: Data -> Decoded<DirectArgs>)

  datatype Via = ViaPaymaster | Direct

  datatype WithdrawCall = WithdrawCall(index: nat, args: WithdrawArgs, refund: nat, via: Via)

  datatype Rules = Rules(paymaster: Address, rewardAccount: Address, allowedInstances: seq<Address>, sender: Address)

  // ------------------------------------------------------------ single calls

  predicate IsRelay(d: Decoders, paymaster: Address, call: AccountCall) {
    call.target == paymaster && d.paymasterCall(call.data).Withdraw?
  }

  predicate IsDirect(d: Decoders, paymaster: Address, call: AccountCall) {
    call.target != paymaster && d.poolCall(call.data).Withdraw?
  }

  predicate IsWithdraw(d: Decoders, paymaster: Address, call: AccountCall) {
    IsRelay(d, paymaster, call) || IsDirect(d, paymaster, call)
  }

  function DecodedAt(d: Decoders, paymaster: Address, calls: seq<AccountCall>, index: nat): (w: WithdrawCall)
    requires index < |calls| && IsWithdraw(d, paymaster, calls[index])
    ensures w.index == index
  {
    var call := calls[index];
    if call.target == paymaster then WithdrawCall(index, d.paymasterCall(call.data).args, 0, ViaPaymaster) else
      var a := d.poolCall(call.data).args;
      WithdrawCall(index, WithdrawArgs(call.target, a.proof, a.root, a.nullifierHash, a.recipient, a.relayer, a.fee),
                   a.refund, Direct)
  }

  /** A withdraw through the paymaster, field by field. */
  lemma RelayFields(d: Decoders, paymaster: Address, calls: seq<AccountCall>, index: nat)
    requires index < |calls| && IsRelay(d, paymaster, calls[index])
    ensures var w := DecodedAt(d, paymaster, calls, index);
      w.args == d.paymasterCall(calls[index].data).args && w.refund == 0 && w.via == ViaPaymaster && w.index == index
  {
  }

  /** A withdraw called on a pool directly: the pool is the target of the call, all else is in its data. */
  lemma DirectFields(d: Decoders, paymaster: Address, calls: seq<AccountCall>, index: nat)
    requires index < |calls| && IsDirect(d, paymaster, calls[index])
    ensures var w, a := DecodedAt(d, paymaster, calls, index), d.poolCall(calls[index].data).args;
      && w.args.pool == calls[index].target && w.args.proof == a.proof && w.args.root == a.root
      && w.args.nullifierHash == a.nullifierHash && w.args.recipient == a.recipient
      && w.args.relayer == a.relayer && w.args.fee == a.fee
      && w.refund == a.refund && w.via == Direct && w.index == index
  {
  }

  // ------------------------------------------------------------ decodeTornadoWithdraws

  /** Every withdraw among the first `n` calls, in order. */
  function WithdrawsIn(d: Decoders, paymaster: Address, calls: seq<AccountCall>, n: nat): (ws: seq<WithdrawCall>)
    requires n <= |calls|
    ensures forall w :: w in ws ==> w.index < n
  {
    if n == 0 then [] else
      WithdrawsIn(d, paymaster, calls, n - 1) +
      if IsWithdraw(d, paymaster, calls[n - 1]) then [DecodedAt(d, paymaster, calls, n - 1)] else []
  }

  method DecodeTornadoWithdraws(d: Decoders, paymaster: Address, calls: seq<AccountCall>) returns (matches: seq<WithdrawCall>)
    ensures matches == WithdrawsIn(d, paymaster, calls, |calls|)
  {
    matches := [];
    for index := 0 to |calls|
      invariant matches == WithdrawsIn(d, paymaster, calls, index)
    {
      var call := calls[index];
      if call.target == paymaster {
        match d.paymasterCall(call.data)
        case NotOfInterface =>
        case OtherFunction =>
        case Withdraw(args) =>
          matches := matches + [WithdrawCall(index, args, 0, ViaPaymaster)];
      } else {
        match d.poolCall(call.data)
        case NotOfInterface =>
        case OtherFunction =>
        case Withdraw(a) =>
          var args := WithdrawArgs(call.target, a.proof, a.root, a.nullifierHash, a.recipient, a.relayer, a.fee);
          matches := matches + [WithdrawCall(index, args, a.refund, Direct)];
      }
    }
  }

  /** The decoded list is exactly the withdraws: each one once, and in call order. */
  lemma {:induction false} WithdrawsAreExact(d: Decoders, paymaster: Address, calls: seq<AccountCall>, n: nat)
    requires n <= |calls|
    ensures var ws := WithdrawsIn(d, paymaster, calls, n);
      && (forall w :: w in ws ==> w.index < n && IsWithdraw(d, paymaster, calls[w.index])
                                  && w == DecodedAt(d, paymaster, calls, w.index))
      && (forall i | 0 <= i < n && IsWithdraw(d, paymaster, calls[i]) :: DecodedAt(d, paymaster, calls, i) in ws)
      && (forall i, j | 0 <= i < j < |ws| :: ws[i].index < ws[j].index)
  {
    hide IsWithdraw, DecodedAt;
    if n == 0 {
    } else {
      WithdrawsAreExact(d, paymaster, calls, n - 1);
      var before := WithdrawsIn(d, paymaster, calls, n - 1);
      var ws := WithdrawsIn(d, paymaster, calls, n);
      forall i, j | 0 <= i < j < |ws|
        ensures ws[i].index < ws[j].index
      {
        assert ws[i] == before[i] && ws[i] in before;
      }
    }
  }

  // ------------------------------------------------------------ findSponsoringWithdraw

  function CountTarget(calls: seq<AccountCall>, target: Address): nat {
    if calls == [] then 0
    else CountTarget(calls[..|calls| - 1], target) + if calls[|calls| - 1].target == target then 1 else 0
  }

  function Relayed(ws: seq<WithdrawCall>): (relayed: seq<WithdrawCall>)
    ensures forall w :: w in relayed ==> w in ws
  {
    if ws == [] then [] else
      Relayed(ws[..|ws| - 1]) + if ws[|ws| - 1].via.ViaPaymaster? then [ws[|ws| - 1]] else []
  }

  /** The checks of `findSponsoringWithdraw`, in its order. */
  function FindSponsoring(d: Decoders, calls: seq<AccountCall>, rules: Rules): Result<WithdrawCall> {
    var withdraws := WithdrawsIn(d, rules.paymaster, calls, |calls|);
    var relayed := Relayed(withdraws);
    if withdraws == [] then Err
    else if CountTarget(calls, rules.paymaster) != |relayed| then Err
    else if relayed == [] then Err
    else if |withdraws| > 1 then Err
    else
      var w := relayed[0];
      assert w in withdraws;
      if w.args.relayer != rules.rewardAccount then Err
      else if w.args.recipient != rules.sender then Err
      else if w.args.pool !in rules.allowedInstances then Err
      else if calls[w.index].value != 0 then Err
      else Ok(w)
  }

  /** What makes call `index` the sponsoring one. */
  predicate Sponsoring(d: Decoders, calls: seq<AccountCall>, rules: Rules, index: nat) {
    && index < |calls|
    && calls[index].target == rules.paymaster && d.paymasterCall(calls[index].data).Withdraw?
    && calls[index].value == 0
    && d.paymasterCall(calls[index].data).args.relayer == rules.rewardAccount
    && d.paymasterCall(calls[index].data).args.recipient == rules.sender
    && d.paymasterCall(calls[index].data).args.pool in rules.allowedInstances
    && (forall j | 0 <= j < |calls| && j != index :: calls[j].target != rules.paymaster)
    && (forall j | 0 <= j < |calls| && j != index :: !d.poolCall(calls[j].data).Withdraw?)
  }

  lemma {:induction false} NoTarget(calls: seq<AccountCall>, target: Address)
    ensures CountTarget(calls, target) == 0 <==> forall j | 0 <= j < |calls| :: calls[j].target != target
  {
    if calls == [] {
    } else {
      NoTarget(calls[..|calls| - 1], target);
    }
  }

  lemma {:induction false} OneTarget(calls: seq<AccountCall>, target: Address, index: nat)
    requires index < |calls| && calls[index].target == target
    ensures CountTarget(calls, target) >= 1
    ensures CountTarget(calls, target) == 1 <==>
      forall j | 0 <= j < |calls| && j != index :: calls[j].target != target
  {
    var rest := calls[..|calls| - 1];
    NoTarget(rest, target);
    if index < |rest| {
      OneTarget(rest, target, index);
      assert calls[|rest|].target == target ==> !(forall j | 0 <= j < |calls| && j != index :: calls[j].target != target);
    }
  }

  /** With a sponsoring call there is one withdraw in the list, that call. */
  lemma OneWithdraw(d: Decoders, calls: seq<AccountCall>, paymaster: Address, index: nat)
    requires index < |calls| && IsWithdraw(d, paymaster, calls[index])
    requires forall j | 0 <= j < |calls| && j != index :: !IsWithdraw(d, paymaster, calls[j])
    ensures WithdrawsIn(d, paymaster, calls, |calls|) == [DecodedAt(d, paymaster, calls, index)]
  {
    WithdrawsAreExact(d, paymaster, calls, |calls|);
    var ws := WithdrawsIn(d, paymaster, calls, |calls|);
    assert |ws| > 1 ==> ws[0].index < ws[1].index;
    assert DecodedAt(d, paymaster, calls, index) in ws;
    forall i | 0 <= i < |ws|
      ensures ws[i].index == index && ws[i] == DecodedAt(d, paymaster, calls, index)
    {
      assert ws[i] in ws;
    }
  }

  /**
   A call list is accepted exactly when one and only one call targets the paymaster, that call
   is a valueless `relayWithdraw` with the required relayer, recipient and an allowed pool, and
   no other top-level call is a pool withdraw; what is returned is that call.
   */
  lemma AcceptedExactlyWhenSponsoring(d: Decoders, calls: seq<AccountCall>, rules: Rules, index: nat)
    ensures Sponsoring(d, calls, rules, index) <==>
      FindSponsoring(d, calls, rules).Ok? && FindSponsoring(d, calls, rules).value.index == index
    ensures Sponsoring(d, calls, rules, index) ==>
      FindSponsoring(d, calls, rules).value == DecodedAt(d, rules.paymaster, calls, index)
  {
    if Sponsoring(d, calls, rules, index) {
      OneWithdraw(d, calls, rules.paymaster, index);
      OneTarget(calls, rules.paymaster, index);
      var w := DecodedAt(d, rules.paymaster, calls, index);
      assert [w][..0] == [] && Relayed([w]) == [w];
    }
    if FindSponsoring(d, calls, rules).Ok? && FindSponsoring(d, calls, rules).value.index == index {
      AcceptedIsSponsoring(d, calls, rules);
    }
  }

  lemma AcceptedIsSponsoring(d: Decoders, calls: seq<AccountCall>, rules: Rules)
    requires FindSponsoring(d, calls, rules).Ok?
    ensures Sponsoring(d, calls, rules, FindSponsoring(d, calls, rules).value.index)
  {
    var ws := WithdrawsIn(d, rules.paymaster, calls, |calls|);
    WithdrawsAreExact(d, rules.paymaster, calls, |calls|);
    assert ws[..0] == [] && ws == [ws[0]];
    var w := ws[0];
    assert w in ws && Relayed(ws) == [w];
    OneTarget(calls, rules.paymaster, w.index);
    forall j | 0 <= j < |calls| && j != w.index
      ensures !IsDirect(d, rules.paymaster, calls[j])
    {
      assert IsDirect(d, rules.paymaster, calls[j]) ==> DecodedAt(d, rules.paymaster, calls, j) in ws;
    }
  }

  method FindSponsoringWithdraw(d: Decoders, calls: seq<AccountCall>, rules: Rules) returns (found: Result<WithdrawCall>)
    ensures found.Ok? ==> Sponsoring(d, calls, rules, found.value.index)
    ensures found.Ok? ==>
      && found.value.args == d.paymasterCall(calls[found.value.index].data).args
      && found.value.refund == 0 && found.value.via == ViaPaymaster
    ensures found.Err? ==> forall index: nat :: !Sponsoring(d, calls, rules, index)
  {
    var withdraws := DecodeTornadoWithdraws(d, rules.paymaster, calls);
    var paymasterCalls := 0;
    for i := 0 to |calls|
      invariant paymasterCalls == CountTarget(calls[..i], rules.paymaster)
    {
      assert calls[..i + 1] == calls[..i] + [calls[i]];
      if calls[i].target == rules.paymaster {
        paymasterCalls := paymasterCalls + 1;
      }
    }
    assert calls[..|calls|] == calls;
    var relayed := [];
    for i := 0 to |withdraws|
      invariant relayed == Relayed(withdraws[..i])
    {
      assert withdraws[..i + 1] == withdraws[..i] + [withdraws[i]];
      if withdraws[i].via.ViaPaymaster? {
        relayed := relayed + [withdraws[i]];
      }
    }
    assert withdraws[..|withdraws|] == withdraws;
    found := Err;
    if withdraws != [] && paymasterCalls == |relayed| && relayed != [] && |withdraws| <= 1 {
      var w := relayed[0];
      assert w in withdraws;
      if w.args.relayer == rules.rewardAccount && w.args.recipient == rules.sender && w.args.pool in rules.allowedInstances {
        if calls[w.index].value == 0 {
          found := Ok(w);
        }
      }
    }
    assert found == FindSponsoring(d, calls, rules);
    forall index: nat
      ensures Sponsoring(d, calls, rules, index) <==> found.Ok? && found.value.index == index
      ensures Sponsoring(d, calls, rules, index) ==> found.value == DecodedAt(d, rules.paymaster, calls, index)
    {
      AcceptedExactlyWhenSponsoring(d, calls, rules, index);
    }
  }
}
