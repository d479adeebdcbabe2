/**
 The fee floor the relayer asks for off-chain, and what `postOp` keeps on-chain.
 */
module Fees {
  import opened Common

  const BPS: nat := 10_000
  const RATE_SCALE: nat := 1_000_000_000_000_000_000

  datatype UserOpGas = UserOpGas(
    callGasLimit: nat,
    verificationGasLimit: nat,
    preVerificationGas: nat,
    paymasterVerificationGasLimit: nat,
    paymasterPostOpGasLimit: nat)

  function TotalGas(gas: UserOpGas): nat {
    gas.callGasLimit + gas.verificationGasLimit + gas.preVerificationGas +
    gas.paymasterVerificationGasLimit + gas.paymasterPostOpGasLimit
  }

  function WithTailCalls(gas: UserOpGas, tailCallsGas: nat): UserOpGas {
    gas.(callGasLimit := gas.callGasLimit + tailCallsGas)
  }

  /** The share of a denomination, rounded down. */
  function ServiceFeeFor(denomination: nat, serviceFeeBps: nat): (fee: nat)
    ensures fee * 10_000 <= denomination * serviceFeeBps < (fee + 1) * 10_000
  {
    denomination * serviceFeeBps / BPS
  }

  function CeilDiv(a: nat, b: nat): nat
    requires b > 0
  {
    (a + b - 1) / b
  }

  function WithMargin(cost: nat, marginBps: nat): nat {
    cost + cost * marginBps / BPS
  }

  /** The most the EntryPoint can charge for an operation. */
  function Prefund(gas: UserOpGas, maxFeePerGas: nat): nat {
    TotalGas(gas) * maxFeePerGas
  }

  /** The smallest fee the relayer accepts; a zero rate means an ETH pool. */
  function MinimumFee(gas: UserOpGas, maxFeePerGas: nat, marginBps: nat, serviceFee: nat, tokenPerEth: nat): nat {
    var keepEth := WithMargin(Prefund(gas, maxFeePerGas), marginBps);
    (if tokenPerEth != 0 then CeilDiv(keepEth * tokenPerEth, RATE_SCALE) else keepEth) + serviceFee
  }

  /** What `postOp` sees of the operation: gas used before it, and the price paid. */
  datatype Usage = Usage(gasUsed: nat, price: nat)

  function ActualGasCost(u: Usage): nat {
    u.gasUsed * u.price
  }

  /** Gas cost as `postOp` bills it: its own overhead is added. */
  function BilledCost(actualGasCost: nat, price: nat, overhead: nat): nat {
    actualGasCost + overhead * price
  }

  function KeepEth(actualGasCost: nat, price: nat, overhead: nat, marginBps: nat): nat {
    WithMargin(BilledCost(actualGasCost, price, overhead), marginBps)
  }

  /** What `postOp` keeps of the fee, in the fee token. */
  function Keep(actualGasCost: nat, price: nat, overhead: nat, marginBps: nat, serviceFee: nat, isToken: bool, tokenPerEth: nat): nat {
    var keepEth := KeepEth(actualGasCost, price, overhead, marginBps);
    if isToken then keepEth * tokenPerEth / RATE_SCALE + serviceFee else keepEth + serviceFee
  }

  /** The EntryPoint's bounds on one operation: its limits, its price, and room for the postOp overhead. */
  predicate WithinLimits(u: Usage, gas: UserOpGas, maxFeePerGas: nat, overhead: nat) {
    && u.gasUsed + gas.paymasterPostOpGasLimit <= TotalGas(gas)
    && overhead <= gas.paymasterPostOpGasLimit
    && u.price <= maxFeePerGas
  }

  // ------------------------------------------------------------ arithmetic

  lemma MarginMonotone(a: nat, b: nat, marginBps: nat)
    requires a <= b
    ensures WithMargin(a, marginBps) <= WithMargin(b, marginBps)
  {
    MulMonotone(a, marginBps, b, marginBps);
  }

  // ------------------------------------------------------------ what the amounts are

  /** A cost with a margin in basis points, rounded down. */
  lemma MarginIsExact(cost: nat, marginBps: nat)
    ensures WithMargin(cost, marginBps) * 10_000 <= cost * (10_000 + marginBps) < (WithMargin(cost, marginBps) + 1) * 10_000
  {
    assert cost * (10_000 + marginBps) == cost * 10_000 + cost * marginBps;
  }

  lemma MarginAsOneDivision(cost: nat, marginBps: nat)
    ensures WithMargin(cost, marginBps) == cost * (10_000 + marginBps) / 10_000
  {
    MarginIsExact(cost, marginBps);
    var keep := WithMargin(cost, marginBps);
    QuotientIs(cost * (10_000 + marginBps), 10_000, keep, cost * (10_000 + marginBps) - 10_000 * keep);
  }

  /** What `postOp` keeps: gas with its overhead, plus the margin, plus the service fee; rounded down at each step. */
  lemma KeepIsExact(actualGasCost: nat, price: nat, overhead: nat, marginBps: nat, serviceFee: nat, tokenPerEth: nat)
    returns (keepEth: nat)
    ensures var billed := actualGasCost + overhead * price;
      keepEth * 10_000 <= billed * (10_000 + marginBps) < (keepEth + 1) * 10_000
    ensures Keep(actualGasCost, price, overhead, marginBps, serviceFee, false, tokenPerEth) == keepEth + serviceFee
    ensures var keep := Keep(actualGasCost, price, overhead, marginBps, serviceFee, true, tokenPerEth);
      && keep >= serviceFee
      && (keep - serviceFee) * 1_000_000_000_000_000_000 <= keepEth * tokenPerEth
      && keepEth * tokenPerEth < (keep - serviceFee + 1) * 1_000_000_000_000_000_000
  {
    keepEth := KeepEth(actualGasCost, price, overhead, marginBps);
    MarginIsExact(actualGasCost + overhead * price, marginBps);
  }

  /** The floor: all five limits at the highest price, plus the margin, converted rounding up, plus the service fee. */
  lemma FloorIsExact(gas: UserOpGas, maxFeePerGas: nat, marginBps: nat, serviceFee: nat, tokenPerEth: nat)
    returns (keepEth: nat)
    ensures var limits := gas.callGasLimit + gas.verificationGasLimit + gas.preVerificationGas
                          + gas.paymasterVerificationGasLimit + gas.paymasterPostOpGasLimit;
      keepEth * 10_000 <= limits * maxFeePerGas * (10_000 + marginBps) < (keepEth + 1) * 10_000
    ensures MinimumFee(gas, maxFeePerGas, marginBps, serviceFee, 0) == keepEth + serviceFee
    ensures tokenPerEth > 0 ==>
      var floor := MinimumFee(gas, maxFeePerGas, marginBps, serviceFee, tokenPerEth);
      && floor >= serviceFee
      && keepEth * tokenPerEth <= (floor - serviceFee) * 1_000_000_000_000_000_000
      && (floor - serviceFee) * 1_000_000_000_000_000_000 < keepEth * tokenPerEth + 1_000_000_000_000_000_000
  {
    keepEth := WithMargin(Prefund(gas, maxFeePerGas), marginBps);
    MarginIsExact(Prefund(gas, maxFeePerGas), marginBps);
    CeilIsFloorOrNext(keepEth * tokenPerEth, RATE_SCALE);
  }

  /** Tail calls raise the call gas limit by their gas, and nothing else. */
  lemma TailCallsAreAdded(gas: UserOpGas, tailCallsGas: nat)
    ensures WithTailCalls(gas, tailCallsGas) == UserOpGas(gas.callGasLimit + tailCallsGas, gas.verificationGasLimit,
              gas.preVerificationGas, gas.paymasterVerificationGasLimit, gas.paymasterPostOpGasLimit)
  {
  }

  // ------------------------------------------------------------ the floor dominates

  /** The billed cost never exceeds the prefund. */
  lemma BilledWithinPrefund(u: Usage, gas: UserOpGas, maxFeePerGas: nat, overhead: nat)
    requires WithinLimits(u, gas, maxFeePerGas, overhead)
    ensures BilledCost(ActualGasCost(u), u.price, overhead) <= Prefund(gas, maxFeePerGas)
  {
    assert u.gasUsed * u.price + overhead * u.price == (u.gasUsed + overhead) * u.price;
    MulMonotone(u.gasUsed + overhead, u.price, TotalGas(gas), maxFeePerGas);
  }

  /**
   A fee at or above the floor is never below what `postOp` keeps, in ETH and in tokens,
   although one side rounds up and the other down.
   */
  lemma FloorCoversKeep(u: Usage, gas: UserOpGas, maxFeePerGas: nat, overhead: nat, marginBps: nat,
                        serviceFee: nat, isToken: bool, tokenPerEth: nat)
    requires WithinLimits(u, gas, maxFeePerGas, overhead)
    requires !isToken ==> tokenPerEth == 0
    ensures Keep(ActualGasCost(u), u.price, overhead, marginBps, serviceFee, isToken, tokenPerEth)
         <= MinimumFee(gas, maxFeePerGas, marginBps, serviceFee, tokenPerEth)
  {
    hide WithMargin, Prefund, BilledCost, ActualGasCost, WithinLimits;
    BilledWithinPrefund(u, gas, maxFeePerGas, overhead);
    var onChain := KeepEth(ActualGasCost(u), u.price, overhead, marginBps);
    var offChain := WithMargin(Prefund(gas, maxFeePerGas), marginBps);
    MarginMonotone(BilledCost(ActualGasCost(u), u.price, overhead), Prefund(gas, maxFeePerGas), marginBps);
    assert onChain <= offChain;
    if isToken {
      RateConversion(onChain, offChain, tokenPerEth);
    }
  }

  /**
   The floor, for usage given phase by phase: validation and execution within their own limits,
   the pre-verification gas as quoted, a `postOp` overhead within its limit.
   */
  lemma FloorCoversPhases(verification: nat, paymasterVerification: nat, execution: nat, price: nat, gas: UserOpGas,
                          maxFeePerGas: nat, overhead: nat, marginBps: nat, serviceFee: nat, isToken: bool, tokenPerEth: nat)
    requires verification <= gas.verificationGasLimit && paymasterVerification <= gas.paymasterVerificationGasLimit
    requires execution <= gas.callGasLimit && overhead <= gas.paymasterPostOpGasLimit && price <= maxFeePerGas
    requires !isToken ==> tokenPerEth == 0
    ensures var gasUsed := gas.preVerificationGas + verification + paymasterVerification + execution;
      Keep(gasUsed * price, price, overhead, marginBps, serviceFee, isToken, tokenPerEth)
      <= MinimumFee(gas, maxFeePerGas, marginBps, serviceFee, tokenPerEth)
  {
    hide Keep, MinimumFee;
    var u := Usage(gas.preVerificationGas + verification + paymasterVerification + execution, price);
    FloorCoversKeep(u, gas, maxFeePerGas, overhead, marginBps, serviceFee, isToken, tokenPerEth);
  }

  lemma RateConversion(onChain: nat, offChain: nat, tokenPerEth: nat)
    requires onChain <= offChain
    ensures onChain * tokenPerEth / RATE_SCALE <= CeilDiv(offChain * tokenPerEth, RATE_SCALE)
  {
    MulMonotone(onChain, tokenPerEth, offChain, tokenPerEth);
  }

  /**
   No smaller floor would do: an operation that uses its limits up keeps the whole floor in ETH.
   In tokens it keeps the whole floor exactly when the conversion leaves no remainder, and one unit
   less otherwise.
   */
  lemma FloorIsTight(gas: UserOpGas, maxFeePerGas: nat, marginBps: nat, serviceFee: nat, isToken: bool, tokenPerEth: nat)
    requires isToken <==> tokenPerEth != 0
    ensures var overhead := gas.paymasterPostOpGasLimit;
      var u := Usage(TotalGas(gas) - overhead, maxFeePerGas);
      var keep := Keep(ActualGasCost(u), maxFeePerGas, overhead, marginBps, serviceFee, isToken, tokenPerEth);
      var floor := MinimumFee(gas, maxFeePerGas, marginBps, serviceFee, tokenPerEth);
      && WithinLimits(u, gas, maxFeePerGas, overhead)
      && (!isToken ==> keep == floor)
      && (isToken ==> floor - 1 <= keep <= floor)
      && (isToken ==> (keep == floor <==> WithMargin(Prefund(gas, maxFeePerGas), marginBps) * tokenPerEth % RATE_SCALE == 0))
  {
    hide WithMargin;
    var overhead := gas.paymasterPostOpGasLimit;
    var used := TotalGas(gas) - overhead;
    assert used * maxFeePerGas + overhead * maxFeePerGas == TotalGas(gas) * maxFeePerGas;
    if isToken {
      CeilIsFloorOrNext(WithMargin(Prefund(gas, maxFeePerGas), marginBps) * tokenPerEth, RATE_SCALE);
    }
  }

  lemma CeilIsFloorOrNext(a: nat, b: nat)
    requires b > 0
    ensures CeilDiv(a, b) == if a % b == 0 then a / b else a / b + 1
  {
    var q, r := a / b, a % b;
    assert a == b * q + r;
    if r == 0 {
      QuotientIs(a + b - 1, b, q, b - 1);
    } else {
      assert a + b - 1 == b * (q + 1) + (r - 1);
      QuotientIs(a + b - 1, b, q + 1, r - 1);
    }
  }

  /** One unit of gas at one wei, at the smallest rate: nothing is kept of a floor of one. */
  lemma FloorAboveKeep() returns (gas: UserOpGas)
    ensures Keep(ActualGasCost(Usage(TotalGas(gas), 1)), 1, 0, 0, 0, true, 1) == 0
    ensures gas.paymasterPostOpGasLimit == 0 && MinimumFee(gas, 1, 0, 0, 1) == 1
  {
    gas := UserOpGas(1, 0, 0, 0, 0);
  }

  /** Raising the call gas limit by the tail calls' gas covers operations that use that much more. */
  lemma TailCallsAreCovered(u: Usage, more: nat, gas: UserOpGas, tailCallsGas: nat, maxFeePerGas: nat, overhead: nat,
                            marginBps: nat, serviceFee: nat, isToken: bool, tokenPerEth: nat)
    requires WithinLimits(u, gas, maxFeePerGas, overhead) && more <= tailCallsGas
    requires !isToken ==> tokenPerEth == 0
    ensures Keep(ActualGasCost(Usage(u.gasUsed + more, u.price)), u.price, overhead, marginBps, serviceFee, isToken, tokenPerEth)
         <= MinimumFee(WithTailCalls(gas, tailCallsGas), maxFeePerGas, marginBps, serviceFee, tokenPerEth)
  {
    hide Keep, MinimumFee, ActualGasCost;
    FloorCoversKeep(Usage(u.gasUsed + more, u.price), WithTailCalls(gas, tailCallsGas), maxFeePerGas, overhead,
                    marginBps, serviceFee, isToken, tokenPerEth);
  }

  /**
   Every intermediate value of `postOp` is bounded by its off-chain counterpart, so checked
   256-bit arithmetic cannot revert where the quote stayed below 2^256.
   */
  lemma PostOpStaysBelowTheQuote(u: Usage, gas: UserOpGas, maxFeePerGas: nat, overhead: nat, marginBps: nat, tokenPerEth: nat)
    requires WithinLimits(u, gas, maxFeePerGas, overhead)
    ensures var billed := BilledCost(ActualGasCost(u), u.price, overhead);
      var prefund := Prefund(gas, maxFeePerGas);
      && billed * marginBps <= prefund * marginBps
      && WithMargin(billed, marginBps) <= WithMargin(prefund, marginBps)
      && WithMargin(billed, marginBps) * tokenPerEth <= WithMargin(prefund, marginBps) * tokenPerEth
  {
    hide WithMargin, Prefund, BilledCost, ActualGasCost, WithinLimits;
    var billed := BilledCost(ActualGasCost(u), u.price, overhead);
    var prefund := Prefund(gas, maxFeePerGas);
    BilledWithinPrefund(u, gas, maxFeePerGas, overhead);
    MulMonotone(billed, marginBps, prefund, marginBps);
    MarginMonotone(billed, prefund, marginBps);
    MulMonotone(WithMargin(billed, marginBps), tokenPerEth, WithMargin(prefund, marginBps), tokenPerEth);
  }

  /** What is kept is worth the billed gas, the margin and the service fee, to within one token unit. */
  lemma KeepCoversCosts(actualGasCost: nat, price: nat, overhead: nat, marginBps: nat, serviceFee: nat, tokenPerEth: nat)
    ensures var keepEth := KeepEth(actualGasCost, price, overhead, marginBps);
      && Keep(actualGasCost, price, overhead, marginBps, serviceFee, false, tokenPerEth) == keepEth + serviceFee
      && keepEth >= BilledCost(actualGasCost, price, overhead) >= actualGasCost
      && (Keep(actualGasCost, price, overhead, marginBps, serviceFee, true, tokenPerEth) - serviceFee + 1) * RATE_SCALE
         > keepEth * tokenPerEth
  {
    var keepEth := KeepEth(actualGasCost, price, overhead, marginBps);
    var value := keepEth * tokenPerEth;
    assert (value / RATE_SCALE + 1) * RATE_SCALE > value;
  }
}
