/**
 The off-chain validator and the on-chain paymaster together: what a signed operation can relay.
 */
module Composition {
  import opened Common
  import opened Sponsorship
  import V = Validator

  /** `withdrawalHash` of a `relayWithdraw` call, the same function on both sides. */
  type WithdrawalHash = V.WithdrawArgs -> Word

  /** What a called contract does: nested actions, and whether it reverts by itself. */
  datatype Behaviour = Behaviour(inner: seq<Action>, reverts: bool)

  function SlotOf(hash: WithdrawalHash, args: V.WithdrawArgs): Slot {
    Slot(args.recipient, hash(args))
  }

  /**
   One call of the sender's account as the chain runs it. On the paymaster, `relayWithdraw`
   relays if the sender is the recipient and reverts otherwise; any other call runs as it likes.
   The account bubbles a revert.
   */
  function ChainAction(d: V.Decoders, hash: WithdrawalHash, paymaster: Address, sender: Address,
                       call: V.AccountCall, b: Behaviour): Action {
    if V.IsRelay(d, paymaster, call) then
      var args := d.paymasterCall(call.data).args;
      if args.recipient == sender then Relay(SlotOf(hash, args), b.inner, b.reverts, Bubbles)
      else Call([], true, Bubbles)
    else Call(b.inner, b.reverts, Bubbles)
  }

  /** The batch, executed in order and all-or-nothing. */
  function Batch(d: V.Decoders, hash: WithdrawalHash, paymaster: Address, sender: Address,
                 calls: seq<V.AccountCall>, bs: seq<Behaviour>): (acts: seq<Action>)
    requires |bs| == |calls|
    ensures |acts| == |calls|
    ensures forall i | 0 <= i < |calls| :: acts[i] == ChainAction(d, hash, paymaster, sender, calls[i], bs[i])
  {
    if calls == [] then [] else
      [ChainAction(d, hash, paymaster, sender, calls[0], bs[0])] + Batch(d, hash, paymaster, sender, calls[1..], bs[1..])
  }

  /** The relays of one sender, whatever they were for. */
  function RelaysOf(log: seq<Event>, sender: Address): nat {
    if log == [] then 0 else
      RelaysOf(log[..|log| - 1], sender) +
      if log[|log| - 1].Relayed? && log[|log| - 1].slot.sender == sender then 1 else 0
  }

  /** Before execution the sender holds exactly one grant, the signed one. */
  ghost predicate OnlyGrant(w: World, sender: Address, signed: Word) {
    && Get(w.allowance, Slot(sender, signed)) == 1
    && forall other | other != signed :: Get(w.allowance, Slot(sender, other)) == 0
  }

  lemma {:induction false} RelaysOfOneSlot(log: seq<Event>, sender: Address, signed: Word)
    requires forall other | other != signed :: Relays(log, Slot(sender, other)) == 0
    ensures RelaysOf(log, sender) == Relays(log, Slot(sender, signed))
  {
    if log == [] {
    } else {
      var rest, last := log[..|log| - 1], log[|log| - 1];
      forall other | other != signed
        ensures Relays(rest, Slot(sender, other)) == 0
      {
        assert Relays(log, Slot(sender, other)) == 0;
      }
      if last.Relayed? && last.slot.sender == sender && last.slot.withdrawal != signed {
        assert Relays(log, Slot(sender, last.slot.withdrawal)) > 0;
      }
      RelaysOfOneSlot(rest, sender, signed);
    }
  }

  /** An action of the batch that succeeds because it must bubble: a relay really relayed. */
  lemma RelayDraws(w: World, act: Action) returns (ext: seq<Event>)
    requires act.Relay? && act.onRevert.Bubbles? && NoValidate(act) && RunAction(w, act).Some?
    ensures Draws(w, RunAction(w, act).value, ext) && Relays(ext, act.slot) >= 1
  {
    var consumed := Consume(w, act.slot).value;
    ConsumeDraws(w, act.slot);
    var more := RunDraws(consumed, act.inner);
    DrawsCompose(w, consumed, RunAction(w, act).value, [Relayed(act.slot)], more);
    ext := [Relayed(act.slot)] + more;
    RelaysOfConcat([Relayed(act.slot)], more, act.slot);
    assert [Relayed(act.slot)] == [] + [Relayed(act.slot)];
    CountsOfAppend([], Relayed(act.slot), act.slot);
  }

  /** A successful batch with a relay at `index` relayed its slot. */
  lemma {:induction false} BatchRelays(w: World, acts: seq<Action>, index: nat) returns (ext: seq<Event>)
    requires NoValidateAny(acts) && Run(w, acts).Some?
    requires index < |acts| && acts[index].Relay? && acts[index].onRevert.Bubbles?
    ensures Draws(w, Run(w, acts).value, ext) && Relays(ext, acts[index].slot) >= 1
    decreases |acts|
  {
    var slot := acts[index].slot;
    var mid := RunAction(w, acts[0]).value;
    var first, second;
    if index == 0 {
      first := RelayDraws(w, acts[0]);
      second := RunDraws(mid, acts[1..]);
    } else {
      first := ActionDraws(w, acts[0]);
      second := BatchRelays(mid, acts[1..], index - 1);
    }
    DrawsCompose(w, mid, Run(mid, acts[1..]).value, first, second);
    RelaysOfConcat(first, second, slot);
    ext := first + second;
  }

  /** A sender with one grant, from which something was drawn, relayed exactly that and nothing else. */
  lemma OneGrantOneRelay(w: World, end: World, ext: seq<Event>, sender: Address, signed: Word)
    requires OnlyGrant(w, sender, signed) && Draws(w, end, ext) && Relays(ext, Slot(sender, signed)) >= 1
    ensures RelaysOf(ext, sender) == 1 && Relays(ext, Slot(sender, signed)) == 1
    ensures Get(end.allowance, Slot(sender, signed)) == 0
  {
    assert Get(end.allowance, Slot(sender, signed)) + Relays(ext, Slot(sender, signed)) == Get(w.allowance, Slot(sender, signed));
    forall other | other != signed
      ensures Relays(ext, Slot(sender, other)) == 0
    {
      assert Get(end.allowance, Slot(sender, other)) + Relays(ext, Slot(sender, other)) == Get(w.allowance, Slot(sender, other));
    }
    RelaysOfOneSlot(ext, sender, signed);
  }

  /**
   For every call list the validator accepts: if its withdrawal hash is what the sender was
   granted, once and nothing else, then a successful execution relays exactly once for that
   sender, and what it relays is the accepted call, whatever the tail calls do.
   */
  lemma AcceptedOperationRelaysOnce(d: V.Decoders, hash: WithdrawalHash, rules: V.Rules,
                                    calls: seq<V.AccountCall>, bs: seq<Behaviour>, w: World)
    requires |bs| == |calls|
    requires V.FindSponsoring(d, calls, rules).Ok?
    requires OnlyGrant(w, rules.sender, hash(V.FindSponsoring(d, calls, rules).value.args))
    requires NoValidateAny(Batch(d, hash, rules.paymaster, rules.sender, calls, bs))
    requires Run(w, Batch(d, hash, rules.paymaster, rules.sender, calls, bs)).Some?
    ensures var found := V.FindSponsoring(d, calls, rules).value;
      var end := Run(w, Batch(d, hash, rules.paymaster, rules.sender, calls, bs)).value;
      && w.log <= end.log
      && RelaysOf(end.log[|w.log|..], rules.sender) == 1
      && Relays(end.log[|w.log|..], Slot(rules.sender, hash(found.args))) == 1
      && Get(end.allowance, Slot(rules.sender, hash(found.args))) == 0
  {
    var found := V.FindSponsoring(d, calls, rules).value;
    V.AcceptedIsSponsoring(d, calls, rules);
    V.AcceptedExactlyWhenSponsoring(d, calls, rules, found.index);
    var acts := Batch(d, hash, rules.paymaster, rules.sender, calls, bs);
    var slot := Slot(rules.sender, hash(found.args));
    assert acts[found.index] == ChainAction(d, hash, rules.paymaster, rules.sender, calls[found.index], bs[found.index]);
    assert acts[found.index].Relay? && acts[found.index].slot == slot;
    var ext := BatchRelays(w, acts, found.index);
    assert Run(w, acts).value.log[|w.log|..] == ext;
    OneGrantOneRelay(w, Run(w, acts).value, ext, rules.sender, slot.withdrawal);
  }

  // ------------------------------------------------------------ whole bundles

  /** The validation phase of a bundle: one grant for every operation. */
  function Validations(granted: seq<Slot>): (acts: seq<Action>)
    ensures |acts| == |granted|
    ensures forall i | 0 <= i < |granted| :: acts[i] == Validate(granted[i])
  {
    if granted == [] then [] else [Validate(granted[0])] + Validations(granted[1..])
  }

  /** How often the operations of a sender are in a bundle. */
  function ValidatedFor(granted: seq<Slot>, sender: Address): nat {
    if granted == [] then 0 else ValidatedFor(granted[1..], sender) + if granted[0].sender == sender then 1 else 0
  }

  function CountOf(granted: seq<Slot>, slot: Slot): nat {
    if granted == [] then 0 else CountOf(granted[1..], slot) + if granted[0] == slot then 1 else 0
  }

  lemma {:induction false} ValidationsGrant(w: World, granted: seq<Slot>, slot: Slot)
    ensures Run(w, Validations(granted)).Some?
    ensures var end := Run(w, Validations(granted)).value;
      && Get(end.allowance, slot) == Get(w.allowance, slot) + CountOf(granted, slot)
      && RelaysOf(end.log, slot.sender) == RelaysOf(w.log, slot.sender)
    decreases |granted|
  {
    if granted == [] {
    } else {
      var next := Grant(w, granted[0]);
      assert next.log[..|next.log| - 1] == w.log;
      ValidationsGrant(next, granted[1..], slot);
      assert RunAction(w, Validations(granted)[0]) == Some(next) && Validations(granted)[1..] == Validations(granted[1..]);
    }
  }

  lemma {:induction false} CountWithinSender(granted: seq<Slot>, slot: Slot, other: Slot)
    requires slot != other && slot.sender == other.sender
    ensures CountOf(granted, slot) + CountOf(granted, other) <= ValidatedFor(granted, slot.sender)
  {
    if granted == [] {
    } else {
      CountWithinSender(granted[1..], slot, other);
    }
  }

  lemma {:induction false} CountOfMember(granted: seq<Slot>, slot: Slot)
    requires slot in granted
    ensures 1 <= CountOf(granted, slot) <= ValidatedFor(granted, slot.sender)
  {
    if slot in granted[1..] {
      CountOfMember(granted[1..], slot);
    } else {
      NotCounted(granted[1..], slot);
    }
  }

  lemma {:induction false} NotCounted(granted: seq<Slot>, slot: Slot)
    requires slot !in granted
    ensures CountOf(granted, slot) == 0
  {
    if granted == [] {
    } else {
      NotCounted(granted[1..], slot);
    }
  }

  /** A sender validated once, for what was signed, starts the executions with that grant alone. */
  lemma OneValidationIsOnlyGrant(granted: seq<Slot>, sender: Address, signed: Word)
    requires ValidatedFor(granted, sender) == 1 && Slot(sender, signed) in granted
    ensures Run(EMPTY, Validations(granted)).Some?
    ensures OnlyGrant(Run(EMPTY, Validations(granted)).value, sender, signed)
    ensures RelaysOf(Run(EMPTY, Validations(granted)).value.log, sender) == 0
  {
    var slot := Slot(sender, signed);
    ValidationsGrant(EMPTY, granted, slot);
    CountOfMember(granted, slot);
    forall other | other != signed
      ensures Get(Run(EMPTY, Validations(granted)).value.allowance, Slot(sender, other)) == 0
    {
      ValidationsGrant(EMPTY, granted, Slot(sender, other));
      CountWithinSender(granted, slot, Slot(sender, other));
    }
  }

  lemma {:induction false} RelaysOfAppend(log: seq<Event>, ext: seq<Event>, sender: Address)
    ensures RelaysOf(log + ext, sender) == RelaysOf(log, sender) + RelaysOf(ext, sender)
  {
    if ext == [] {
      assert log + ext == log;
    } else {
      assert (log + ext)[..|log + ext| - 1] == log + ext[..|ext| - 1];
      RelaysOfAppend(log, ext[..|ext| - 1], sender);
    }
  }

  /** Executions before a batch, the batch with its relay, and executions after it only draw allowances down. */
  lemma PhasesDraw(w: World, before: seq<Action>, batch: seq<Action>, index: nat, after: seq<Action>) returns (ext: seq<Event>)
    requires NoValidateAny(before) && NoValidateAny(batch) && NoValidateAny(after)
    requires index < |batch| && batch[index].Relay? && batch[index].onRevert.Bubbles?
    requires Run(w, before).Some? && Run(Run(w, before).value, batch).Some?
    requires Run(Run(Run(w, before).value, batch).value, after).Some?
    ensures Draws(w, Run(Run(Run(w, before).value, batch).value, after).value, ext)
    ensures Relays(ext, batch[index].slot) >= 1
  {
    hide Draws, Run, NoValidateAny;
    var executing := Run(w, before).value;
    var executed := Run(executing, batch).value;
    var first := RunDraws(w, before);
    var own := BatchRelays(executing, batch, index);
    var last := RunDraws(executed, after);
    DrawsCompose(w, executing, executed, first, own);
    DrawsCompose(w, executed, Run(executed, after).value, first + own, last);
    RelaysOfConcat(first, own, batch[index].slot);
    RelaysOfConcat(first + own, last, batch[index].slot);
    ext := first + own + last;
  }

  /**
   A whole bundle from empty transient storage: all validations, in which the sender occurs once
   and is granted the hash of the accepted call; the executions before; the sender's own, which
   succeeds; the executions after. Exactly one relay for the sender survives in all of it, the
   accepted one.
   */
  lemma BundleRelaysOnce(d: V.Decoders, hash: WithdrawalHash, rules: V.Rules, calls: seq<V.AccountCall>, bs: seq<Behaviour>,
                         granted: seq<Slot>, before: seq<Action>, after: seq<Action>)
    requires |bs| == |calls| && V.FindSponsoring(d, calls, rules).Ok?
    requires ValidatedFor(granted, rules.sender) == 1
    requires SlotOf(hash, V.FindSponsoring(d, calls, rules).value.args) in granted
    requires NoValidateAny(before) && NoValidateAny(after)
    requires NoValidateAny(Batch(d, hash, rules.paymaster, rules.sender, calls, bs))
    ensures Run(EMPTY, Validations(granted)).Some?
    ensures var validated := Run(EMPTY, Validations(granted)).value;
      Run(validated, before).Some? ==>
        var executing := Run(validated, before).value;
        var executed := Run(executing, Batch(d, hash, rules.paymaster, rules.sender, calls, bs));
        executed.Some? && Run(executed.value, after).Some? ==>
          var end := Run(executed.value, after).value;
          && RelaysOf(end.log, rules.sender) == 1
          && Relayed(SlotOf(hash, V.FindSponsoring(d, calls, rules).value.args)) in end.log
          && Get(end.allowance, SlotOf(hash, V.FindSponsoring(d, calls, rules).value.args)) == 0
  {
    var found := V.FindSponsoring(d, calls, rules).value;
    var slot := SlotOf(hash, found.args);
    V.AcceptedIsSponsoring(d, calls, rules);
    V.AcceptedExactlyWhenSponsoring(d, calls, rules, found.index);
    OneValidationIsOnlyGrant(granted, rules.sender, hash(found.args));
    hide OnlyGrant, Draws, Run, NoValidateAny, RelaysOf, V.FindSponsoring, V.Sponsoring;
    var validated := Run(EMPTY, Validations(granted)).value;
    var batch := Batch(d, hash, rules.paymaster, rules.sender, calls, bs);
    assert batch[found.index] == ChainAction(d, hash, rules.paymaster, rules.sender, calls[found.index], bs[found.index]);
    assert slot.sender == rules.sender && batch[found.index].Relay? && batch[found.index].slot == slot;
    if Run(validated, before).Some? {
      var executing := Run(validated, before).value;
      if Run(executing, batch).Some? && Run(Run(executing, batch).value, after).Some? {
        var end := Run(Run(executing, batch).value, after).value;
        var ext := PhasesDraw(validated, before, batch, found.index, after);
        OneGrantOneRelay(validated, end, ext, rules.sender, hash(found.args));
        DrawnLog(validated, end, ext, slot);
      }
    }
  }

  lemma DrawnLog(w: World, end: World, ext: seq<Event>, slot: Slot)
    requires Draws(w, end, ext) && Relays(ext, slot) >= 1
    ensures RelaysOf(end.log, slot.sender) == RelaysOf(w.log, slot.sender) + RelaysOf(ext, slot.sender)
    ensures Relayed(slot) in end.log
  {
    RelaysOfAppend(w.log, ext, slot.sender);
    RelayedIsIn(ext, slot);
  }

  lemma {:induction false} RelayedIsIn(log: seq<Event>, slot: Slot)
    requires Relays(log, slot) >= 1
    ensures Relayed(slot) in log
  {
    if log[|log| - 1] != Relayed(slot) {
      RelayedIsIn(log[..|log| - 1], slot);
    }
  }

  // ------------------------------------------------------------ accepted operations do run

  /** No call of the batch calls back or reverts by itself. */
  predicate Quiet(bs: seq<Behaviour>) {
    forall i | 0 <= i < |bs| :: bs[i] == Behaviour([], false)
  }

  lemma {:induction false} QuietPassesBy(d: V.Decoders, hash: WithdrawalHash, paymaster: Address, sender: Address,
                                         calls: seq<V.AccountCall>, bs: seq<Behaviour>, w: World)
    requires |bs| == |calls| && Quiet(bs)
    requires forall call | call in calls :: call.target != paymaster
    ensures Run(w, Batch(d, hash, paymaster, sender, calls, bs)) == Some(w)
  {
    var acts := Batch(d, hash, paymaster, sender, calls, bs);
    if calls == [] {
    } else {
      assert calls[0] in calls;
      CallFrame(w, [], false, Bubbles);
      assert acts[1..] == Batch(d, hash, paymaster, sender, calls[1..], bs[1..]);
      QuietPassesBy(d, hash, paymaster, sender, calls[1..], bs[1..], w);
    }
  }

  /** A call list with one call on the paymaster, a relay of its sender with an allowance, runs. */
  lemma {:induction false} QuietBatchRuns(d: V.Decoders, hash: WithdrawalHash, paymaster: Address, sender: Address,
                                          calls: seq<V.AccountCall>, bs: seq<Behaviour>, index: nat, w: World)
    requires |bs| == |calls| && Quiet(bs)
    requires index < |calls| && V.IsRelay(d, paymaster, calls[index])
    requires d.paymasterCall(calls[index].data).args.recipient == sender
    requires forall j | 0 <= j < |calls| && j != index :: calls[j].target != paymaster
    requires Get(w.allowance, SlotOf(hash, d.paymasterCall(calls[index].data).args)) > 0
    ensures Run(w, Batch(d, hash, paymaster, sender, calls, bs)).Some?
    decreases |calls|
  {
    var acts := Batch(d, hash, paymaster, sender, calls, bs);
    assert acts[1..] == Batch(d, hash, paymaster, sender, calls[1..], bs[1..]);
    if index == 0 {
      var slot := SlotOf(hash, d.paymasterCall(calls[0].data).args);
      RelayFrame(w, slot, [], false, Bubbles);
      var taken := World(w.allowance[slot := Get(w.allowance, slot) - 1], w.log + [Relayed(slot)]);
      forall call | call in calls[1..]
        ensures call.target != paymaster
      {
        var j :| 0 <= j < |calls[1..]| && calls[1..][j] == call;
        assert calls[j + 1] == call;
      }
      QuietPassesBy(d, hash, paymaster, sender, calls[1..], bs[1..], taken);
    } else {
      CallFrame(w, [], false, Bubbles);
      QuietBatchRuns(d, hash, paymaster, sender, calls[1..], bs[1..], index - 1, w);
    }
  }

  /** Every accepted call list runs with its one grant when nothing it calls reverts. */
  lemma AcceptedOperationRuns(d: V.Decoders, hash: WithdrawalHash, rules: V.Rules,
                              calls: seq<V.AccountCall>, bs: seq<Behaviour>, w: World)
    requires |bs| == |calls| && Quiet(bs) && V.FindSponsoring(d, calls, rules).Ok?
    requires OnlyGrant(w, rules.sender, hash(V.FindSponsoring(d, calls, rules).value.args))
    ensures Run(w, Batch(d, hash, rules.paymaster, rules.sender, calls, bs)).Some?
  {
    hide V.FindSponsoring, Run;
    V.AcceptedIsSponsoring(d, calls, rules);
    var index := V.FindSponsoring(d, calls, rules).value.index;
    V.AcceptedExactlyWhenSponsoring(d, calls, rules, index);
    QuietBatchRuns(d, hash, rules.paymaster, rules.sender, calls, bs, index, w);
  }

  /** A tail call does whatever its target does, and takes the batch with it when it reverts. */
  lemma TailCallRuns(d: V.Decoders, hash: WithdrawalHash, paymaster: Address, sender: Address,
                     call: V.AccountCall, b: Behaviour, w: World)
    requires !V.IsRelay(d, paymaster, call)
    ensures RunAction(w, ChainAction(d, hash, paymaster, sender, call, b)) == if b.reverts then None else Run(w, b.inner)
  {
    CallFrame(w, b.inner, b.reverts, Bubbles);
  }

  /** The recipient's own relay: it takes one allowance of exactly this withdrawal, then runs what the pool calls. */
  lemma OwnRelayRuns(d: V.Decoders, hash: WithdrawalHash, paymaster: Address, sender: Address,
                     call: V.AccountCall, b: Behaviour, w: World)
    requires V.IsRelay(d, paymaster, call) && d.paymasterCall(call.data).args.recipient == sender
    ensures var slot := Slot(sender, hash(d.paymasterCall(call.data).args));
      var left := if Get(w.allowance, slot) > 0 then Get(w.allowance, slot) - 1 else 0;
      RunAction(w, ChainAction(d, hash, paymaster, sender, call, b))
      == if Get(w.allowance, slot) == 0 || b.reverts then None
         else Run(World(w.allowance[slot := left], w.log + [Relayed(slot)]), b.inner)
  {
    RelayFrame(w, Slot(sender, hash(d.paymasterCall(call.data).args)), b.inner, b.reverts, Bubbles);
  }

  /** Somebody else's note cannot be relayed: such a call reverts, and the batch with it. */
  lemma OnlyTheRecipientRelays(d: V.Decoders, hash: WithdrawalHash, paymaster: Address, sender: Address,
                               call: V.AccountCall, b: Behaviour, w: World)
    requires V.IsRelay(d, paymaster, call) && d.paymasterCall(call.data).args.recipient != sender
    ensures RunAction(w, ChainAction(d, hash, paymaster, sender, call, b)) == None
  {
  }
}
