/**
 What a relay brings in and what `postOp` does with it.

 The pure functions give the ledger after each step; the class is proved against them, and the
 theorems follow the ledger over whole runs of operations. A relay may be made for any sender that
 holds an allowance, also during another sender's operation; what it brought in is pending until
 its own sender's `postOp`.
 */
module Settlement {
  import opened Common
  import opened Fees

  const NO_ADDRESS: Address := 0

  datatype Parameters = Parameters(gasMarginBps: nat, postOpGasOverhead: nat)

  datatype Mode = OpSucceeded | OpReverted | PostOpReverted

  /** What the paymaster owns, and what is recorded as received for each sender in this transaction. */
  datatype Ledger = Ledger(
    eth: nat,
    tokens: map<Address, nat>,
    deposit: nat,
    receivedEth: map<Address, nat>,
    receivedToken: map<Address, nat>)

  /** What one relay paid the paymaster, and for whom; `poolToken` is zero for an ETH pool. */
  datatype Receipt = Receipt(sender: Address, poolToken: Address, eth: nat, tokens: nat)

  /** `_addReceived`: nothing is written for a zero amount. */
  function AddReceived(slots: map<Address, nat>, sender: Address, amount: nat): (after: map<Address, nat>)
    ensures forall a :: Get(after, a) == Get(slots, a) + if a == sender then amount else 0
  {
    if amount == 0 then slots else slots[sender := Get(slots, sender) + amount]
  }

  /** The effect of one relay. The token slot is keyed by the sender alone, whatever the token. */
  function Receive(l: Ledger, r: Receipt): Ledger {
    var paid := l.(eth := l.eth + r.eth, receivedEth := AddReceived(l.receivedEth, r.sender, r.eth));
    if r.poolToken == NO_ADDRESS then paid
    else paid.(tokens := l.tokens[r.poolToken := Get(l.tokens, r.poolToken) + r.tokens],
               receivedToken := AddReceived(l.receivedToken, r.sender, r.tokens))
  }

  /** How the two outgoing calls of `postOp` go, when the paymaster holds what they send. */
  datatype Calls = Calls(refundArrives: bool, depositArrives: bool)

  /**
   What is offered back: nothing without a refund address, never more than was received, and
   otherwise the whole fee beyond what is kept.
   */
  function Refund(terms: FeeTerms, keep: nat, balance: nat): (refund: nat)
    ensures refund <= balance
    ensures refund > 0 ==> terms.refundTo != NO_ADDRESS && refund + keep <= terms.fee
    ensures terms.refundTo != NO_ADDRESS && keep <= terms.fee && refund < balance ==> refund + keep == terms.fee
  {
    if terms.refundTo == NO_ADDRESS || terms.fee <= keep then 0
    else if terms.fee - keep > balance then balance else terms.fee - keep
  }

  /** What a transfer moves; one that fails is caught and moves nothing. */
  function Moved(amount: nat, holding: nat, arrives: bool): (moved: nat)
    ensures moved <= amount && moved <= holding
    ensures moved > 0 ==> arrives && moved == amount
    ensures arrives && amount <= holding ==> moved == amount
  {
    if arrives && amount <= holding then amount else 0
  }

  /** Where the ETH of one operation went. */
  datatype Outcome = Outcome(received: nat, refund: nat, deposited: nat, stays: nat)

  function EthOutcome(eth: nat, terms: FeeTerms, keep: nat, balance: nat, calls: Calls): Outcome {
    var refund := Moved(Refund(terms, keep, balance), eth, calls.refundArrives);
    var deposited := Moved(balance - refund, eth - refund, calls.depositArrives);
    Outcome(balance, refund, deposited, balance - refund - deposited)
  }

  function SettleEth(l: Ledger, terms: FeeTerms, keep: nat, balance: nat, calls: Calls): Ledger {
    var o := EthOutcome(l.eth, terms, keep, balance, calls);
    l.(eth := l.eth - o.refund - o.deposited, deposit := l.deposit + o.deposited)
  }

  function TokenRefund(l: Ledger, terms: FeeTerms, keep: nat, balance: nat, calls: Calls): nat {
    Moved(Refund(terms, keep, balance), Get(l.tokens, terms.feeToken), calls.refundArrives)
  }

  function SettleToken(l: Ledger, terms: FeeTerms, keep: nat, balance: nat, calls: Calls): Ledger {
    l.(tokens := l.tokens[terms.feeToken := Get(l.tokens, terms.feeToken) - TokenRefund(l, terms, keep, balance, calls)])
  }

  function KeepOf(p: Parameters, terms: FeeTerms, actualGasCost: nat, price: nat): nat {
    Keep(actualGasCost, price, p.postOpGasOverhead, p.gasMarginBps, terms.serviceFee,
         terms.feeToken != NO_ADDRESS, terms.tokenPerEth)
  }

  /** What is kept, in full: gas and overhead, the margin in basis points, the rate per 1e18 wei, the service fee. */
  lemma KeepOfIsExact(p: Parameters, terms: FeeTerms, actualGasCost: nat, price: nat) returns (keepEth: nat)
    ensures var billed := actualGasCost + p.postOpGasOverhead * price;
      keepEth * 10_000 <= billed * (10_000 + p.gasMarginBps) < (keepEth + 1) * 10_000
    ensures terms.feeToken == 0 ==> KeepOf(p, terms, actualGasCost, price) == keepEth + terms.serviceFee
    ensures terms.feeToken != 0 ==>
      var keep := KeepOf(p, terms, actualGasCost, price);
      && keep >= terms.serviceFee
      && (keep - terms.serviceFee) * 1_000_000_000_000_000_000 <= keepEth * terms.tokenPerEth
      && keepEth * terms.tokenPerEth < (keep - terms.serviceFee + 1) * 1_000_000_000_000_000_000
  {
    hide Keep;
    keepEth := KeepIsExact(actualGasCost, price, p.postOpGasOverhead, p.gasMarginBps, terms.serviceFee, terms.tokenPerEth);
  }

  function Taken(l: Ledger, sender: Address): Ledger {
    l.(receivedEth := l.receivedEth[sender := 0], receivedToken := l.receivedToken[sender := 0])
  }

  /** In every mode the sender's slots end empty; nothing else moves unless the operation succeeded. */
  function PostOp(l: Ledger, p: Parameters, mode: Mode, sender: Address, terms: FeeTerms,
                  actualGasCost: nat, price: nat, calls: Calls): (after: Ledger)
    ensures Get(after.receivedEth, sender) == 0 && Get(after.receivedToken, sender) == 0
    ensures !mode.OpSucceeded? ==> after.eth == l.eth && after.tokens == l.tokens && after.deposit == l.deposit
  {
    var keep := KeepOf(p, terms, actualGasCost, price);
    if !mode.OpSucceeded? then Taken(l, sender)
    else if terms.feeToken == NO_ADDRESS then SettleEth(Taken(l, sender), terms, keep, Get(l.receivedEth, sender), calls)
    else SettleToken(Taken(l, sender), terms, keep, Get(l.receivedToken, sender), calls)
  }

  // ------------------------------------------------------------ the contract

  class Paymaster {
    var parameters: Parameters
    var eth: nat
    var tokens: map<Address, nat>
    var deposit: nat
    var receivedEth: map<Address, nat>
    var receivedToken: map<Address, nat>

    function State(): Ledger
      reads this
    {
      Ledger(eth, tokens, deposit, receivedEth, receivedToken)
    }

    constructor (parameters: Parameters, eth: nat, tokens: map<Address, nat>, deposit: nat)
      ensures this.parameters == parameters && State() == Ledger(eth, tokens, deposit, map[], map[])
    {
      this.parameters, this.eth, this.tokens, this.deposit := parameters, eth, tokens, deposit;
      receivedEth, receivedToken := map[], map[];
    }

    /** Measures what the pool paid as balance differences and records it for the sender. */
    method RelayWithdraw(sender: Address, poolToken: Address, ethPaid: nat, tokensPaid: nat)
      modifies this
      ensures parameters == old(parameters)
      ensures State() == Receive(old(State()), Receipt(sender, poolToken, ethPaid, tokensPaid))
      ensures eth == old(eth) + ethPaid && deposit == old(deposit)
      ensures forall a :: Get(receivedEth, a) == old(Get(receivedEth, a)) + if a == sender then ethPaid else 0
      ensures forall a :: Get(receivedToken, a) == old(Get(receivedToken, a)) + if a == sender && poolToken != 0 then tokensPaid else 0
      ensures forall t :: Get(tokens, t) == old(Get(tokens, t)) + if t == poolToken && poolToken != 0 then tokensPaid else 0
    {
      var ethBefore := eth;
      var tokenBefore := Get(tokens, poolToken);
      // The router pays the relayer's fee to this contract.
      eth := eth + ethPaid;
      if poolToken != NO_ADDRESS {
        tokens := tokens[poolToken := Get(tokens, poolToken) + tokensPaid];
      }
      receivedEth := AddReceived(receivedEth, sender, eth - ethBefore);
      if poolToken != NO_ADDRESS {
        receivedToken := AddReceived(receivedToken, sender, Get(tokens, poolToken) - tokenBefore);
      }
    }

    method TakeReceived(sender: Address) returns (takenEth: nat, takenToken: nat)
      modifies `receivedEth, `receivedToken
      ensures takenEth == Get(old(receivedEth), sender) && takenToken == Get(old(receivedToken), sender)
      ensures State() == Taken(old(State()), sender)
    {
      takenEth, takenToken := Get(receivedEth, sender), Get(receivedToken, sender);
      receivedEth, receivedToken := receivedEth[sender := 0], receivedToken[sender := 0];
    }

    method SettleInEth(terms: FeeTerms, keep: nat, received: nat, calls: Calls)
      modifies `eth, `deposit
      ensures State() == SettleEth(old(State()), terms, keep, received, calls)
    {
      var balance := received;
      if terms.refundTo != NO_ADDRESS && terms.fee > keep {
        var refund := terms.fee - keep;
        if refund > balance {
          refund := balance;
        }
        if refund > 0 && calls.refundArrives && refund <= eth {
          eth := eth - refund;
          balance := balance - refund;
        }
      }
      if balance > 0 && calls.depositArrives && balance <= eth {
        eth := eth - balance;
        deposit := deposit + balance;
      }
    }

    method SettleInToken(terms: FeeTerms, keep: nat, received: nat, calls: Calls)
      modifies `tokens
      ensures State() == SettleToken(old(State()), terms, keep, received, calls)
    {
      var refund := 0;
      if terms.refundTo != NO_ADDRESS && terms.fee > keep {
        refund := terms.fee - keep;
        if refund > received {
          refund := received;
        }
        if !calls.refundArrives || refund > Get(tokens, terms.feeToken) {
          refund := 0;
        }
      }
      tokens := tokens[terms.feeToken := Get(tokens, terms.feeToken) - refund];
    }

    method PostOpHook(mode: Mode, sender: Address, terms: FeeTerms, actualGasCost: nat, price: nat, calls: Calls)
      modifies this
      ensures parameters == old(parameters)
      ensures State() == PostOp(old(State()), parameters, mode, sender, terms, actualGasCost, price, calls)
    {
      hide SettleEth, SettleToken, EthOutcome, TokenRefund, Refund, Moved;
      var takenEth, takenToken := TakeReceived(sender);
      if mode != OpSucceeded {
        return;
      }
      var gasCost := actualGasCost + parameters.postOpGasOverhead * price;
      var keepEth := gasCost + gasCost * parameters.gasMarginBps / BPS;
      if terms.feeToken == NO_ADDRESS {
        SettleInEth(terms, keepEth + terms.serviceFee, takenEth, calls);
      } else {
        SettleInToken(terms, keepEth * terms.tokenPerEth / RATE_SCALE + terms.serviceFee, takenToken, calls);
      }
    }
  }

  // ------------------------------------------------------------ one operation

  /** One operation of a bundle: what survives of its relays, unless it reverts, then its postOp. */
  datatype Operation = Operation(
    sender: Address,
    relays: seq<Receipt>,
    reverts: bool,
    terms: FeeTerms,
    actualGasCost: nat,
    price: nat,
    calls: Calls)

  function ReceiveAll(l: Ledger, relays: seq<Receipt>): Ledger {
    if relays == [] then l else Receive(ReceiveAll(l, relays[..|relays| - 1]), relays[|relays| - 1])
  }

  /** A reverted execution takes its relays back before `postOp` runs. */
  function Executed(l: Ledger, op: Operation): Ledger {
    if op.reverts then l else ReceiveAll(l, op.relays)
  }

  function RunOperation(l: Ledger, p: Parameters, op: Operation): Ledger {
    PostOp(Executed(l, op), p, if op.reverts then OpReverted else OpSucceeded, op.sender, op.terms,
           op.actualGasCost, op.price, op.calls)
  }

  function KeepFor(p: Parameters, op: Operation): nat {
    KeepOf(p, op.terms, op.actualGasCost, op.price)
  }

  // ------------------------------------------------------------ ETH

  function EthOf(relays: seq<Receipt>): nat {
    if relays == [] then 0 else EthOf(relays[..|relays| - 1]) + relays[|relays| - 1].eth
  }

  /** What the relays for one sender brought in. */
  function EthFor(relays: seq<Receipt>, sender: Address): nat {
    if relays == [] then 0 else
      EthFor(relays[..|relays| - 1], sender) + if relays[|relays| - 1].sender == sender then relays[|relays| - 1].eth else 0
  }

  /** Each relay is recorded for its own sender. */
  lemma {:induction false} ReceivedForSender(l: Ledger, relays: seq<Receipt>, sender: Address)
    ensures Get(ReceiveAll(l, relays).receivedEth, sender) == Get(l.receivedEth, sender) + EthFor(relays, sender)
  {
    if relays == [] {
    } else {
      ReceivedForSender(l, relays[..|relays| - 1], sender);
    }
  }

  function EthRelayed(op: Operation): nat {
    if op.reverts then 0 else EthOf(op.relays)
  }

  /** What was relayed for senders whose `postOp` has not run yet. */
  ghost function PendingEth(l: Ledger): nat {
    Sum(l.receivedEth)
  }

  /** Everything pending is there; true of every ledger without pending amounts. */
  ghost predicate Backed(l: Ledger) {
    PendingEth(l) <= l.eth
  }

  /** Where the ETH that the `postOp` of an operation takes goes. */
  function OutcomeOf(l: Ledger, p: Parameters, op: Operation): Outcome {
    var executed := Executed(l, op);
    var balance := Get(executed.receivedEth, op.sender);
    if op.reverts || op.terms.feeToken != NO_ADDRESS then Outcome(balance, 0, 0, balance)
    else EthOutcome(executed.eth, op.terms, KeepFor(p, op), balance, op.calls)
  }

  /** An ETH operation with a refund address that takes the refund, and a fee not below what is kept. */
  predicate RefundIsDue(p: Parameters, op: Operation) {
    && !op.reverts && op.terms.feeToken == NO_ADDRESS && op.terms.refundTo != NO_ADDRESS && op.calls.refundArrives
    && KeepFor(p, op) <= op.terms.fee
  }

  lemma AddReceivedSum(slots: map<Address, nat>, sender: Address, amount: nat)
    ensures Sum(AddReceived(slots, sender, amount)) == Sum(slots) + amount
  {
    SumUpdate(slots, sender, Get(slots, sender) + amount);
  }

  lemma ReceiveAddsUp(l: Ledger, r: Receipt)
    ensures Receive(l, r).eth == l.eth + r.eth && Receive(l, r).deposit == l.deposit
    ensures PendingEth(Receive(l, r)) == PendingEth(l) + r.eth
  {
    hide AddReceived;
    AddReceivedSum(l.receivedEth, r.sender, r.eth);
  }

  lemma {:induction false} ReceivingAddsUp(l: Ledger, relays: seq<Receipt>)
    ensures var m := ReceiveAll(l, relays);
      && m.eth == l.eth + EthOf(relays) && m.deposit == l.deposit
      && PendingEth(m) == PendingEth(l) + EthOf(relays)
  {
    hide Receive, PendingEth;
    if relays == [] {
    } else {
      ReceivingAddsUp(l, relays[..|relays| - 1]);
      ReceiveAddsUp(ReceiveAll(l, relays[..|relays| - 1]), relays[|relays| - 1]);
    }
  }

  /**
   One operation conserves ETH. What `postOp` takes for its sender is refunded, deposited or stays;
   the refund is bounded by what was received and by the fee beyond what is kept; ETH that is not
   pending never falls; what is pending for others is not touched.
   */
  lemma OperationConserves(l: Ledger, p: Parameters, op: Operation)
    requires Backed(l)
    ensures var m, o := RunOperation(l, p, op), OutcomeOf(l, p, op);
      && Backed(m)
      && o.received == Get(l.receivedEth, op.sender) + (if op.reverts then 0 else EthFor(op.relays, op.sender))
      && o.received == o.refund + o.deposited + o.stays
      && (o.refund > 0 ==> op.terms.refundTo != NO_ADDRESS && o.refund + KeepFor(p, op) <= op.terms.fee)
      && (RefundIsDue(p, op) && o.refund < o.received ==> o.refund + KeepFor(p, op) == op.terms.fee)
      && (o.stays > 0 ==> op.reverts || op.terms.feeToken != NO_ADDRESS || !op.calls.depositArrives)
      && m.eth - PendingEth(m) == l.eth - PendingEth(l) + o.stays
      && m.deposit == l.deposit + o.deposited
      && PendingEth(m) + o.received == PendingEth(l) + EthRelayed(op)
      && m.receivedEth == Executed(l, op).receivedEth[op.sender := 0]
      && m.receivedToken == Executed(l, op).receivedToken[op.sender := 0]
  {
    var x := Executed(l, op);
    ReceivedForSender(l, op.relays, op.sender);
    ReceivingAddsUp(l, op.relays);
    SumUpdate(x.receivedEth, op.sender, 0);
  }

  // ------------------------------------------------------------ tokens

  /** The part of the pending tokens that was received in `token`, by sender. The contract does not record it. */
  function ReceivedIn(pending: map<Address, nat>, relays: seq<Receipt>, token: Address): map<Address, nat> {
    if relays == [] then pending else
      var before, last := ReceivedIn(pending, relays[..|relays| - 1], token), relays[|relays| - 1];
      if last.poolToken == token then AddReceived(before, last.sender, last.tokens) else before
  }

  /** The same when the `postOp` of an operation begins. */
  function PendingAt(pending: map<Address, nat>, op: Operation, token: Address): map<Address, nat> {
    if op.reverts then pending else ReceivedIn(pending, op.relays, token)
  }

  function PendingAfter(pending: map<Address, nat>, op: Operation, token: Address): map<Address, nat> {
    PendingAt(pending, op, token)[op.sender := 0]
  }

  /** What the paymaster holds of a token on its own account. */
  ghost function Own(l: Ledger, pending: map<Address, nat>, token: Address): int {
    Get(l.tokens, token) - Sum(pending)
  }

  /** What an operation's `postOp` pays out, in its `feeToken`. */
  function TokensPaid(l: Ledger, p: Parameters, op: Operation): nat {
    var executed := Executed(l, op);
    if op.reverts || op.terms.feeToken == NO_ADDRESS then 0
    else TokenRefund(executed, op.terms, KeepFor(p, op), Get(executed.receivedToken, op.sender), op.calls)
  }

  lemma {:induction false} ReceivingTokens(l: Ledger, relays: seq<Receipt>, pending: map<Address, nat>, token: Address)
    requires token != NO_ADDRESS
    ensures Own(ReceiveAll(l, relays), ReceivedIn(pending, relays, token), token) == Own(l, pending, token)
    ensures Sum(ReceivedIn(pending, relays, token)) >= Sum(pending)
  {
    if relays == [] {
    } else {
      var rest, last := relays[..|relays| - 1], relays[|relays| - 1];
      ReceivingTokens(l, rest, pending, token);
      var before := ReceivedIn(pending, rest, token);
      SumUpdate(before, last.sender, Get(before, last.sender) + last.tokens);
    }
  }

  /** An operation's pending tokens become the paymaster's own, less what it pays out. */
  lemma OperationMovesTokens(l: Ledger, p: Parameters, op: Operation, pending: map<Address, nat>, token: Address)
    requires token != NO_ADDRESS
    ensures Own(RunOperation(l, p, op), PendingAfter(pending, op, token), token)
         == Own(l, pending, token) + Get(PendingAt(pending, op, token), op.sender)
            - (if op.terms.feeToken == token then TokensPaid(l, p, op) else 0)
  {
    ReceivingTokens(l, op.relays, pending, token);
    SumUpdate(PendingAt(pending, op, token), op.sender, 0);
  }

  /** The guard under which a refund is paid from what its own sender brought in, in the same token. */
  ghost predicate PaysFromItsOwn(l: Ledger, p: Parameters, op: Operation, pending: map<Address, nat>) {
    TokensPaid(l, p, op) <= Get(PendingAt(pending, op, op.terms.feeToken), op.sender)
  }

  /**
   An operation leaves what the paymaster holds of a token on its own account untouched if it pays
   in another token, and otherwise exactly when it pays out no more than was relayed for its sender
   in that very token.
   */
  lemma TokensHeldAreKept(l: Ledger, p: Parameters, op: Operation, pending: map<Address, nat>, token: Address)
    requires token != NO_ADDRESS
    ensures Own(RunOperation(l, p, op), PendingAfter(pending, op, token), token) >= Own(l, pending, token)
      <==> (op.terms.feeToken == token ==> PaysFromItsOwn(l, p, op, pending))
  {
    OperationMovesTokens(l, p, op, pending, token);
  }

  /**
   Outside that guard the code spends what it held before: the relay was paid in token 8, the
   terms name token 7, and fifty of token 7 leave.
   */
  lemma OtherTokenIsSpent() returns (l: Ledger, p: Parameters, op: Operation)
    ensures l == Ledger(0, map[7 := 100], 0, map[], map[])
    ensures op.relays == [Receipt(op.sender, 8, 0, 50)] && op.terms.feeToken == 7
    ensures Get(RunOperation(l, p, op).tokens, 7) == 50
  {
    l, p := Ledger(0, map[7 := 100], 0, map[], map[]), Parameters(0, 0);
    op := Operation(1, [Receipt(1, 8, 0, 50)], false, FeeTerms(0, 0, 50, 0, 9, 7, 0, 0, 0), 0, 0, Calls(true, true));
    assert op.relays[..0] == [];
    var x := Executed(l, op);
    assert Get(x.tokens, 7) == 100 && Get(x.receivedToken, 1) == 50;
  }

  // ------------------------------------------------------------ whole runs

  function Bundle(l: Ledger, p: Parameters, ops: seq<Operation>): Ledger {
    if ops == [] then l else RunOperation(Bundle(l, p, ops[..|ops| - 1]), p, ops[|ops| - 1])
  }

  /** The outcomes of a run, added up. */
  function Totals(l: Ledger, p: Parameters, ops: seq<Operation>): Outcome {
    if ops == [] then Outcome(0, 0, 0, 0) else
      var rest := ops[..|ops| - 1];
      var t, o := Totals(l, p, rest), OutcomeOf(Bundle(l, p, rest), p, ops[|ops| - 1]);
      Outcome(t.received + o.received, t.refund + o.refund, t.deposited + o.deposited, t.stays + o.stays)
  }

  function AllEthRelayed(ops: seq<Operation>): nat {
    if ops == [] then 0 else AllEthRelayed(ops[..|ops| - 1]) + EthRelayed(ops[|ops| - 1])
  }

  /**
   Over every run, the ETH that surviving relays brought in is refunded, deposited, stays, or is
   still pending; the ETH held grows by exactly what stays and what is pending.
   */
  lemma {:induction false} RunConserves(l: Ledger, p: Parameters, ops: seq<Operation>)
    requires Backed(l)
    ensures var m, t := Bundle(l, p, ops), Totals(l, p, ops);
      && Backed(m)
      && PendingEth(l) + AllEthRelayed(ops) == t.refund + t.deposited + t.stays + PendingEth(m)
      && m.eth - PendingEth(m) == l.eth - PendingEth(l) + t.stays
      && m.deposit == l.deposit + t.deposited
  {
    hide RunOperation, OutcomeOf, Backed;
    if ops == [] {
    } else {
      RunConserves(l, p, ops[..|ops| - 1]);
      OperationConserves(Bundle(l, p, ops[..|ops| - 1]), p, ops[|ops| - 1]);
    }
  }

  function Pending(ops: seq<Operation>, token: Address): map<Address, nat> {
    if ops == [] then map[] else PendingAfter(Pending(ops[..|ops| - 1], token), ops[|ops| - 1], token)
  }

  /** What the paymaster holds of a token on its own account after a run. */
  ghost function OwnAfter(l: Ledger, p: Parameters, ops: seq<Operation>, token: Address): int {
    Own(Bundle(l, p, ops), Pending(ops, token), token)
  }

  /** Operation `n` of a run pays in another token, or from its own. */
  ghost predicate PaysFromItsOwnAt(l: Ledger, p: Parameters, ops: seq<Operation>, token: Address, n: nat)
    requires n < |ops|
  {
    ops[n].terms.feeToken == token ==> PaysFromItsOwn(Bundle(l, p, ops[..n]), p, ops[n], Pending(ops[..n], token))
  }

  /** Operation `n` of a run does not spend what was held of a token before it. */
  ghost predicate HoldsOnAt(l: Ledger, p: Parameters, ops: seq<Operation>, token: Address, n: nat)
    requires n < |ops|
  {
    OwnAfter(l, p, ops[..n + 1], token) >= OwnAfter(l, p, ops[..n], token)
  }

  lemma StepKeepsTokens(l: Ledger, p: Parameters, ops: seq<Operation>, token: Address, n: nat)
    requires token != NO_ADDRESS && n < |ops|
    ensures HoldsOnAt(l, p, ops, token, n) <==> PaysFromItsOwnAt(l, p, ops, token, n)
  {
    assert ops[..n + 1][..n] == ops[..n];
    TokensHeldAreKept(Bundle(l, p, ops[..n]), p, ops[n], Pending(ops[..n], token), token);
  }

  /** Over every run, no operation spends what is held of a token exactly when every refund in it is paid from its own. */
  lemma RunKeepsTokens(l: Ledger, p: Parameters, ops: seq<Operation>, token: Address)
    requires token != NO_ADDRESS
    ensures (forall n: nat | n < |ops| :: HoldsOnAt(l, p, ops, token, n))
      <==> (forall n: nat | n < |ops| :: PaysFromItsOwnAt(l, p, ops, token, n))
  {
    hide HoldsOnAt, PaysFromItsOwnAt;
    forall n: nat | n < |ops|
      ensures HoldsOnAt(l, p, ops, token, n) <==> PaysFromItsOwnAt(l, p, ops, token, n)
    {
      StepKeepsTokens(l, p, ops, token, n);
    }
  }

  /** Then what was held at the start is there at the end, beside everything pending. */
  lemma {:induction false} HoldingsSurvive(l: Ledger, p: Parameters, ops: seq<Operation>, token: Address)
    requires token != NO_ADDRESS && forall n: nat | n < |ops| :: PaysFromItsOwnAt(l, p, ops, token, n)
    ensures Get(Bundle(l, p, ops).tokens, token) >= Get(l.tokens, token) + Sum(Pending(ops, token))
  {
    if ops == [] {
    } else {
      var last := |ops| - 1;
      forall n: nat | n < last
        ensures PaysFromItsOwnAt(l, p, ops[..last], token, n)
      {
        assert PaysFromItsOwnAt(l, p, ops, token, n) && ops[..last][..n] == ops[..n];
      }
      HoldingsSurvive(l, p, ops[..last], token);
      assert ops[..last + 1] == ops;
      StepKeepsTokens(l, p, ops, token, last);
    }
  }

  // ------------------------------------------------------------ one token per sender

  /** Every token relay for `sender` is paid in `token`. */
  ghost predicate RelaysIn(relays: seq<Receipt>, sender: Address, token: Address) {
    forall r | r in relays && r.sender == sender && r.poolToken != NO_ADDRESS :: r.poolToken == token
  }

  /** The tokens that the relays for one sender brought in, in whatever token. */
  function TokensFor(relays: seq<Receipt>, sender: Address): nat {
    if relays == [] then 0 else
      var last := relays[|relays| - 1];
      TokensFor(relays[..|relays| - 1], sender) +
      if last.sender == sender && last.poolToken != NO_ADDRESS then last.tokens else 0
  }

  lemma {:induction false} TokensReceivedForSender(l: Ledger, relays: seq<Receipt>, sender: Address)
    ensures Get(ReceiveAll(l, relays).receivedToken, sender) == Get(l.receivedToken, sender) + TokensFor(relays, sender)
  {
    if relays == [] {
    } else {
      TokensReceivedForSender(l, relays[..|relays| - 1], sender);
    }
  }

  lemma {:induction false} SlotIsInToken(l: Ledger, relays: seq<Receipt>, pending: map<Address, nat>, sender: Address, token: Address)
    requires token != NO_ADDRESS && RelaysIn(relays, sender, token)
    requires Get(l.receivedToken, sender) == Get(pending, sender)
    ensures Get(ReceiveAll(l, relays).receivedToken, sender) == Get(ReceivedIn(pending, relays, token), sender)
  {
    if relays == [] {
    } else {
      assert relays[|relays| - 1] in relays;
      SlotIsInToken(l, relays[..|relays| - 1], pending, sender, token);
    }
  }

  lemma {:induction false} RunSlotIsInToken(l: Ledger, p: Parameters, ops: seq<Operation>, sender: Address, token: Address)
    requires token != NO_ADDRESS && Get(l.receivedToken, sender) == 0
    requires forall op | op in ops :: RelaysIn(op.relays, sender, token)
    ensures Get(Bundle(l, p, ops).receivedToken, sender) == Get(Pending(ops, token), sender)
  {
    if ops == [] {
    } else {
      var rest, last := ops[..|ops| - 1], ops[|ops| - 1];
      assert last in ops;
      RunSlotIsInToken(l, p, rest, sender, token);
      SlotIsInToken(Bundle(l, p, rest), last.relays, Pending(rest, token), sender, token);
    }
  }

  /**
   What a token operation pays back when the transfer goes through: the fee beyond what is kept,
   or everything that was received if that is less.
   */
  lemma TokenRefundIsExact(l: Ledger, p: Parameters, op: Operation)
    requires !op.reverts && op.terms.feeToken != NO_ADDRESS && op.terms.refundTo != NO_ADDRESS && op.calls.refundArrives
    requires KeepFor(p, op) <= op.terms.fee
    ensures var received := Get(l.receivedToken, op.sender) + TokensFor(op.relays, op.sender);
      var paid := TokensPaid(l, p, op);
      received <= Get(Executed(l, op).tokens, op.terms.feeToken) ==>
        && paid <= received && paid + KeepFor(p, op) <= op.terms.fee
        && (paid == received || paid + KeepFor(p, op) == op.terms.fee)
  {
    TokensReceivedForSender(l, op.relays, op.sender);
  }

  /** The guard holds whenever all token relays for a sender pay in the token that its terms name. */
  lemma OneTokenPaysFromItsOwn(l: Ledger, p: Parameters, ops: seq<Operation>, n: nat)
    requires n < |ops| && ops[n].terms.feeToken != NO_ADDRESS && Get(l.receivedToken, ops[n].sender) == 0
    requires forall op | op in ops[..n + 1] :: RelaysIn(op.relays, ops[n].sender, ops[n].terms.feeToken)
    ensures PaysFromItsOwnAt(l, p, ops, ops[n].terms.feeToken, n)
  {
    var op, before := ops[n], ops[..n];
    assert op in ops[..n + 1] && forall o | o in before :: o in ops[..n + 1];
    RunSlotIsInToken(l, p, before, op.sender, op.terms.feeToken);
    SlotIsInToken(Bundle(l, p, before), op.relays, Pending(before, op.terms.feeToken), op.sender, op.terms.feeToken);
  }

  /** An operation with the same relays and token, whatever its other terms, its cost and its calls. */
  predicate SameRelays(op: Operation, other: Operation) {
    && other.sender == op.sender && other.relays == op.relays && other.reverts == op.reverts
    && other.terms.feeToken == op.terms.feeToken
  }

  /**
   The guard read off the ledger before `postOp`: it holds for all terms, costs, prices and call
   outcomes exactly when nothing was recorded for the sender beyond what came in for it in the
   token of the terms, or nothing beyond that is held.
   */
  lemma GuardOnTheLedger(l: Ledger, p: Parameters, op: Operation, pending: map<Address, nat>)
    requires !op.reverts && op.terms.feeToken != NO_ADDRESS
    ensures var mine := Get(PendingAt(pending, op, op.terms.feeToken), op.sender);
      (forall other | SameRelays(op, other) :: PaysFromItsOwn(l, p, other, pending))
      <==> Get(Executed(l, op).receivedToken, op.sender) <= mine || Get(Executed(l, op).tokens, op.terms.feeToken) <= mine
  {
    var mine := Get(PendingAt(pending, op, op.terms.feeToken), op.sender);
    var received, held := Get(Executed(l, op).receivedToken, op.sender), Get(Executed(l, op).tokens, op.terms.feeToken);
    if received > mine && held > mine {
      var terms := op.terms.(fee := mine + 1, serviceFee := 0, refundTo := 1, tokenPerEth := 0);
      var other := op.(terms := terms, actualGasCost := 0, price := 0, calls := Calls(true, true));
      assert KeepFor(p, other) == 0;
      assert SameRelays(op, other) && TokensPaid(l, p, other) == mine + 1;
    }
  }

  // ------------------------------------------------------------ fee floor and settlement together

  /** An operation for whose sender exactly the fee came in, in the asset of its terms, and whose refund arrives. */
  ghost predicate FullyPaid(l: Ledger, op: Operation) {
    && !op.reverts
    && op.terms.refundTo != NO_ADDRESS
    && op.calls.refundArrives
    && (if op.terms.feeToken == NO_ADDRESS
        then Get(l.receivedEth, op.sender) + EthFor(op.relays, op.sender) == op.terms.fee && op.terms.tokenPerEth == 0
        else
          && Get(l.receivedToken, op.sender) == 0
          && RelaysIn(op.relays, op.sender, op.terms.feeToken)
          && TokensFor(op.relays, op.sender) == op.terms.fee)
  }

  /**
   With a fee at or above the floor for its gas limits, an operation that was paid in full leaves
   the paymaster with exactly what `postOp` keeps: its billed gas, the margin and the service fee.
   */
  lemma RetainsExactlyKeep(l: Ledger, p: Parameters, op: Operation, u: Usage, gas: UserOpGas, maxFeePerGas: nat)
    requires Backed(l) && FullyPaid(l, op)
    requires WithinLimits(u, gas, maxFeePerGas, p.postOpGasOverhead)
    requires op.actualGasCost == ActualGasCost(u) && op.price == u.price
    requires op.terms.fee >= MinimumFee(gas, maxFeePerGas, p.gasMarginBps, op.terms.serviceFee, op.terms.tokenPerEth)
    ensures KeepFor(p, op) <= op.terms.fee
    ensures op.terms.feeToken == NO_ADDRESS ==> OutcomeOf(l, p, op).received - OutcomeOf(l, p, op).refund == KeepFor(p, op)
    ensures op.terms.feeToken != NO_ADDRESS ==> op.terms.fee - TokensPaid(l, p, op) == KeepFor(p, op)
  {
    FloorCoversKeep(u, gas, maxFeePerGas, p.postOpGasOverhead, p.gasMarginBps, op.terms.serviceFee,
                    op.terms.feeToken != NO_ADDRESS, op.terms.tokenPerEth);
    hide Keep, MinimumFee, WithinLimits, ActualGasCost;
    if op.terms.feeToken == NO_ADDRESS {
      ReceivingAddsUp(l, op.relays);
      ReceivedForSender(l, op.relays, op.sender);
      PartOfSum(Executed(l, op).receivedEth, op.sender);
    } else {
      TokensReceivedForSender(l, op.relays, op.sender);
      SlotIsInToken(l, op.relays, map[], op.sender, op.terms.feeToken);
      ReceivingTokens(l, op.relays, map[], op.terms.feeToken);
      PartOfSum(ReceivedIn(map[], op.relays, op.terms.feeToken), op.sender);
    }
  }

  // ------------------------------------------------------------ the deposit over runs

  /** The fee is at or above the floor for gas limits and a price that the operation stays within. */
  ghost predicate QuotedBy(p: Parameters, op: Operation, u: Usage, gas: UserOpGas, maxFeePerGas: nat) {
    && WithinLimits(u, gas, maxFeePerGas, p.postOpGasOverhead)
    && op.actualGasCost == ActualGasCost(u) && op.price == u.price
    && op.terms.fee >= MinimumFee(gas, maxFeePerGas, p.gasMarginBps, op.terms.serviceFee, op.terms.tokenPerEth)
  }

  ghost predicate Quoted(p: Parameters, op: Operation) {
    exists u, gas, maxFeePerGas :: QuotedBy(p, op, u, gas, maxFeePerGas)
  }

  /** An ETH operation that was quoted and paid in full, and whose remainder reaches the deposit. */
  ghost predicate FullyPaidInEth(l: Ledger, p: Parameters, op: Operation) {
    Quoted(p, op) && FullyPaid(l, op) && op.terms.feeToken == NO_ADDRESS && op.calls.depositArrives
  }

  /** The most the EntryPoint charges for an operation, its `postOp` included. */
  function ChargeOf(p: Parameters, op: Operation): nat {
    op.actualGasCost + p.postOpGasOverhead * op.price
  }

  /** What an operation owes the paymaster: the charge with the margin, and the service fee. */
  function DueOf(p: Parameters, op: Operation): nat {
    ChargeOf(p, op) * (10_000 + p.gasMarginBps) / 10_000 + op.terms.serviceFee
  }

  lemma DueIsKeep(p: Parameters, op: Operation)
    requires op.terms.feeToken == NO_ADDRESS
    ensures KeepFor(p, op) == DueOf(p, op) >= ChargeOf(p, op) + op.terms.serviceFee
  {
    hide WithMargin;
    MarginAsOneDivision(ChargeOf(p, op), p.gasMarginBps);
    KeepCoversCosts(op.actualGasCost, op.price, p.postOpGasOverhead, p.gasMarginBps, op.terms.serviceFee, op.terms.tokenPerEth);
  }

  lemma FullyPaidStays(l: Ledger, p: Parameters, op: Operation)
    requires Backed(l) && FullyPaid(l, op) && op.terms.feeToken == NO_ADDRESS && op.calls.depositArrives
    ensures OutcomeOf(l, p, op).stays == 0
  {
    OperationConserves(l, p, op);
  }

  /** Such an operation adds exactly what it owes to the deposit, which is more than it is charged. */
  lemma DepositNeverFalls(l: Ledger, p: Parameters, op: Operation)
    requires Backed(l) && FullyPaidInEth(l, p, op)
    ensures RunOperation(l, p, op).deposit == l.deposit + DueOf(p, op)
    ensures DueOf(p, op) >= ChargeOf(p, op) + op.terms.serviceFee
  {
    hide FullyPaid, RunOperation, OutcomeOf, Backed, Executed, MinimumFee, WithinLimits, ActualGasCost, KeepFor, DueOf, ChargeOf;
    var u, gas, maxFeePerGas :| QuotedBy(p, op, u, gas, maxFeePerGas);
    FullyPaidStays(l, p, op);
    RetainsExactlyKeep(l, p, op, u, gas, maxFeePerGas);
    OperationConserves(l, p, op);
    DueIsKeep(p, op);
  }

  /** What a run's operations owe together. */
  function TotalDue(p: Parameters, ops: seq<Operation>): nat {
    if ops == [] then 0 else TotalDue(p, ops[..|ops| - 1]) + DueOf(p, ops[|ops| - 1])
  }

  ghost predicate FullyPaidInEthAt(l: Ledger, p: Parameters, ops: seq<Operation>, n: nat)
    requires n < |ops|
  {
    FullyPaidInEth(Bundle(l, p, ops[..n]), p, ops[n])
  }

  /** Over every run of fully paid ETH operations the deposit earns all charges, margins and service fees. */
  lemma {:induction false} RunPaysForItself(l: Ledger, p: Parameters, ops: seq<Operation>)
    requires Backed(l) && forall n: nat | n < |ops| :: FullyPaidInEthAt(l, p, ops, n)
    ensures Bundle(l, p, ops).deposit == l.deposit + TotalDue(p, ops)
  {
    hide FullyPaidInEth, Backed, DueOf, RunOperation;
    if ops == [] {
    } else {
      var last := |ops| - 1;
      forall n: nat | n < last
        ensures FullyPaidInEthAt(l, p, ops[..last], n)
      {
        assert FullyPaidInEthAt(l, p, ops, n) && ops[..last][..n] == ops[..n];
      }
      RunPaysForItself(l, p, ops[..last]);
      RunConserves(l, p, ops[..last]);
      assert FullyPaidInEthAt(l, p, ops, last);
      DepositNeverFalls(Bundle(l, p, ops[..last]), p, ops[last]);
    }
  }
}
