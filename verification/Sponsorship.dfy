/**
 The one-shot sponsorship allowances in transient storage, over whole bundles.

 A bundle is a list of actions with nested call frames. A frame that reverts takes back
 everything done inside it, transient storage included (EIP-1153, section "Specification").
 */
module Sponsorship {
  import opened Common

  /** The key of an allowance: the sender and the hash of the one withdrawal it is for. */
  datatype Slot = Slot(sender: Address, withdrawal: Word)

  /** What a frame contains. `reverts` says whether a called contract reverts by itself. */
  datatype Action =
    /** `validatePaymasterUserOp`: grants the sender the withdrawal its terms name. */
    | Validate(slot: Slot)
    /** `relayWithdraw` after its caller check, with whatever the router and the pool call back. */
    | Relay(slot: Slot, inner: seq<Action>, reverts: bool, onRevert: OnRevert)
    /** `simulateRelayWithdraw`: grants, relays, and always reverts. */
    | Simulate(slot: Slot, inner: seq<Action>, reverts: bool, onRevert: OnRevert)
    /** Any other call. */
    | Call(body: seq<Action>, reverts: bool, onRevert: OnRevert)

  /** Whether the caller lives on when its callee reverts. */
  datatype OnRevert = Caught | Bubbles

  datatype Event = Granted(slot: Slot) | Relayed(slot: Slot)

  /** Transient storage, and what survived so far. */
  datatype World = World(allowance: map<Slot, nat>, log: seq<Event>)

  function Grant(w: World, slot: Slot): World {
    World(w.allowance[slot := Get(w.allowance, slot) + 1], w.log + [Granted(slot)])
  }

  /** `_consumeSponsorship`: reverts without an allowance. */
  function Consume(w: World, slot: Slot): Option<World> {
    if Get(w.allowance, slot) == 0 then None
    else Some(World(w.allowance[slot := Get(w.allowance, slot) - 1], w.log + [Relayed(slot)]))
  }

  /** Leaves a frame: its effects on success, none of them on revert. */
  function Leave(before: World, body: Option<World>, reverts: bool, onRevert: OnRevert): Option<World> {
    if body.Some? && !reverts then body
    else if onRevert.Caught? then Some(before) else None
  }

  function RunAction(w: World, act: Action): Option<World>
    decreases act
  {
    match act
    case Validate(slot) => Some(Grant(w, slot))
    case Relay(slot, inner, reverts, onRevert) =>
      var body := match Consume(w, slot) case None => None case Some(consumed) => Run(consumed, inner);
      Leave(w, body, reverts, onRevert)
    case Simulate(slot, inner, reverts, onRevert) =>
      var body := match Consume(Grant(w, slot), slot) case None => None case Some(consumed) => Run(consumed, inner);
      Leave(w, Leave(Grant(w, slot), body, reverts, Caught), true, onRevert)
    case Call(body, reverts, onRevert) => Leave(w, Run(w, body), reverts, onRevert)
  }

  /** Runs actions in order; none when the frame they are in reverts. */
  function Run(w: World, acts: seq<Action>): Option<World>
    decreases acts
  {
    if acts == [] then Some(w) else
      match RunAction(w, acts[0])
      case None => None
      case Some(next) => Run(next, acts[1..])
  }

  // ------------------------------------------------------------ when a frame succeeds

  /**
   A relay goes through exactly when its slot has an allowance, what it calls goes through after
   the allowance was taken, and it does not revert by itself; otherwise nothing of it is left.
   */
  lemma RelayFrame(w: World, slot: Slot, inner: seq<Action>, reverts: bool, onRevert: OnRevert)
    ensures var left := if Get(w.allowance, slot) > 0 then Get(w.allowance, slot) - 1 else 0;
      var taken := World(w.allowance[slot := left], w.log + [Relayed(slot)]);
      var end := RunAction(w, Relay(slot, inner, reverts, onRevert));
      if Get(w.allowance, slot) > 0 && !reverts && Run(taken, inner).Some? then end == Run(taken, inner)
      else if onRevert == Caught then end == Some(w)
      else end == None
  {
  }

  /** Any other call: all of its effects, or none. */
  lemma CallFrame(w: World, body: seq<Action>, reverts: bool, onRevert: OnRevert)
    ensures var end := RunAction(w, Call(body, reverts, onRevert));
      if !reverts && Run(w, body).Some? then end == Run(w, body)
      else if onRevert == Caught then end == Some(w)
      else end == None
  {
  }

  /** A validation opens one more relay for its own slot and leaves the other slots alone. */
  lemma ValidationGrants(w: World, slot: Slot, other: Slot)
    ensures var end := RunAction(w, Validate(slot));
      end.Some? && Get(end.value.allowance, other) == Get(w.allowance, other) + if other == slot then 1 else 0
  {
  }

  /** Actions run in their order: what comes first decides what the rest starts from. */
  lemma {:induction false} RunInOrder(w: World, first: seq<Action>, rest: seq<Action>)
    ensures Run(w, first + rest) == match Run(w, first) case None => None case Some(mid) => Run(mid, rest)
    decreases |first|
  {
    if first == [] {
      assert first + rest == rest;
    } else {
      assert (first + rest)[0] == first[0] && (first + rest)[1..] == first[1..] + rest;
      if RunAction(w, first[0]).Some? {
        RunInOrder(RunAction(w, first[0]).value, first[1..], rest);
      }
    }
  }

  // ------------------------------------------------------------ counting

  function Grants(log: seq<Event>, slot: Slot): nat {
    if log == [] then 0
    else Grants(log[..|log| - 1], slot) + if log[|log| - 1] == Granted(slot) then 1 else 0
  }

  function Relays(log: seq<Event>, slot: Slot): nat {
    if log == [] then 0
    else Relays(log[..|log| - 1], slot) + if log[|log| - 1] == Relayed(slot) then 1 else 0
  }

  lemma CountsOfAppend(log: seq<Event>, e: Event, slot: Slot)
    ensures Grants(log + [e], slot) == Grants(log, slot) + if e == Granted(slot) then 1 else 0
    ensures Relays(log + [e], slot) == Relays(log, slot) + if e == Relayed(slot) then 1 else 0
  {
    assert (log + [e])[..|log|] == log;
  }

  /** Every allowance is the surviving grants minus the surviving relays. */
  ghost predicate Accounted(w: World) {
    forall slot :: Get(w.allowance, slot) + Relays(w.log, slot) == Grants(w.log, slot)
  }

  /** Up to every point of the log, no slot was relayed more often than it was granted. */
  ghost predicate NeverOverdrawn(log: seq<Event>) {
    forall n, slot | 0 <= n <= |log| :: Relays(log[..n], slot) <= Grants(log[..n], slot)
  }

  ghost predicate Sound(w: World) {
    Accounted(w) && NeverOverdrawn(w.log)
  }

  lemma AppendIsSound(w: World, allowance: map<Slot, nat>, e: Event)
    requires Sound(w)
    requires Accounted(World(allowance, w.log + [e]))
    ensures Sound(World(allowance, w.log + [e]))
  {
    var log := w.log + [e];
    forall n, slot | 0 <= n <= |log|
      ensures Relays(log[..n], slot) <= Grants(log[..n], slot)
    {
      if n <= |w.log| {
        assert log[..n] == w.log[..n];
      } else {
        assert log[..n] == log;
        assert Get(allowance, slot) + Relays(log, slot) == Grants(log, slot);
      }
    }
  }

  lemma GrantIsSound(w: World, slot: Slot)
    requires Sound(w)
    ensures Sound(Grant(w, slot))
  {
    forall other
      ensures Get(Grant(w, slot).allowance, other) + Relays(Grant(w, slot).log, other) == Grants(Grant(w, slot).log, other)
    {
      CountsOfAppend(w.log, Granted(slot), other);
    }
    AppendIsSound(w, Grant(w, slot).allowance, Granted(slot));
  }

  lemma ConsumeIsSound(w: World, slot: Slot)
    requires Sound(w)
    ensures Consume(w, slot).Some? ==> Sound(Consume(w, slot).value)
  {
    if Consume(w, slot).Some? {
      var next := Consume(w, slot).value;
      forall other
        ensures Get(next.allowance, other) + Relays(next.log, other) == Grants(next.log, other)
      {
        CountsOfAppend(w.log, Relayed(slot), other);
      }
      AppendIsSound(w, next.allowance, Relayed(slot));
    }
  }

  lemma {:induction false} ActionIsSound(w: World, act: Action)
    requires Sound(w)
    ensures RunAction(w, act).Some? ==> Sound(RunAction(w, act).value)
    decreases act
  {
    match act
    case Validate(slot) => GrantIsSound(w, slot);
    case Relay(slot, inner, _, _) =>
      ConsumeIsSound(w, slot);
      if Consume(w, slot).Some? {
        RunIsSound(Consume(w, slot).value, inner);
      }
    case Simulate(_, _, _, _) =>
    case Call(body, _, _) => RunIsSound(w, body);
  }

  /** Over every run, however nested and however much is rolled back. */
  lemma {:induction false} RunIsSound(w: World, acts: seq<Action>)
    requires Sound(w)
    ensures Run(w, acts).Some? ==> Sound(Run(w, acts).value)
    decreases acts
  {
    if acts == [] {
    } else {
      ActionIsSound(w, acts[0]);
      if RunAction(w, acts[0]).Some? {
        RunIsSound(RunAction(w, acts[0]).value, acts[1..]);
      }
    }
  }

  const EMPTY: World := World(map[], [])

  /**
   At the end of every bundle the allowance of a slot is its surviving grants minus its surviving
   relays, and at no point did the relays exceed the grants.
   */
  lemma BundleIsAccounted(acts: seq<Action>, slot: Slot)
    ensures Run(EMPTY, acts).Some? ==>
      var end := Run(EMPTY, acts).value;
      && Get(end.allowance, slot) == Grants(end.log, slot) - Relays(end.log, slot)
      && forall n | 0 <= n <= |end.log| :: Relays(end.log[..n], slot) <= Grants(end.log[..n], slot)
  {
    assert Sound(EMPTY);
    RunIsSound(EMPTY, acts);
  }

  // ------------------------------------------------------------ matching relays with grants

  /** Where the grant number `m` of a slot is in the log. */
  function NthGrant(log: seq<Event>, slot: Slot, m: nat): (index: nat)
    requires m < Grants(log, slot)
    ensures index < |log| && log[index] == Granted(slot) && Grants(log[..index], slot) == m
  {
    var rest := log[..|log| - 1];
    if m < Grants(rest, slot) then
      var index := NthGrant(rest, slot, m);
      assert rest[..index] == log[..index];
      index
    else |log| - 1
  }

  lemma {:induction false} CountsOfPrefix(log: seq<Event>, i: nat, j: nat, slot: Slot)
    requires i <= j <= |log|
    ensures Grants(log[..i], slot) <= Grants(log[..j], slot)
    ensures Relays(log[..i], slot) <= Relays(log[..j], slot)
    ensures i < j && log[i] == Relayed(slot) ==> Relays(log[..i], slot) < Relays(log[..j], slot)
    decreases j - i
  {
    if i < j {
      CountsOfPrefix(log, i, j - 1, slot);
      assert log[..j] == log[..j - 1] + [log[j - 1]];
      CountsOfAppend(log[..j - 1], log[j - 1], slot);
    }
  }

  /** The grant that pays for the relay at position `i`. */
  ghost function MatchingGrant(log: seq<Event>, i: nat): (index: nat)
    requires NeverOverdrawn(log) && i < |log| && log[i].Relayed?
    ensures index < i && log[index] == Granted(log[i].slot)
    ensures Grants(log[..index], log[i].slot) == Relays(log[..i], log[i].slot)
  {
    var slot := log[i].slot;
    assert log[..i + 1] == log[..i] + [log[i]];
    CountsOfAppend(log[..i], log[i], slot);
    assert Relays(log[..i + 1], slot) <= Grants(log[..i + 1], slot);
    var index := NthGrant(log[..i], slot, Relays(log[..i], slot));
    assert log[..i][..index] == log[..index];
    index
  }

  /** Every surviving relay has an earlier grant for its own sender and withdrawal, and no two share one. */
  lemma RelaysHaveDistinctGrants(log: seq<Event>, i: nat, j: nat)
    requires NeverOverdrawn(log) && i < j < |log| && log[i].Relayed? && log[j].Relayed?
    ensures MatchingGrant(log, i) != MatchingGrant(log, j)
  {
    if log[i].slot == log[j].slot {
      CountsOfPrefix(log, i, j, log[i].slot);
    }
  }

  // ------------------------------------------------------------ who can grant

  /** The dry run leaves no grant, no relay, nothing. */
  lemma SimulateLeavesNothing(w: World, act: Action)
    requires act.Simulate?
    ensures RunAction(w, act) == if act.onRevert.Caught? then Some(w) else None
  {
  }

  /** No validation anywhere inside: code that runs in an execution phase. */
  predicate NoValidate(act: Action)
    decreases act
  {
    match act
    case Validate(_) => false
    case Relay(_, inner, _, _) => NoValidateAny(inner)
    case Simulate(_, inner, _, _) => NoValidateAny(inner)
    case Call(body, _, _) => NoValidateAny(body)
  }

  predicate NoValidateAny(acts: seq<Action>)
    decreases acts
  {
    acts == [] || (NoValidate(acts[0]) && NoValidateAny(acts[1..]))
  }

  ghost predicate OnlyRelays(log: seq<Event>) {
    forall e :: e in log ==> e.Relayed?
  }

  /** From `w` to `next` only relays happened, each drawing on the allowance of its slot. */
  ghost predicate Draws(w: World, next: World, ext: seq<Event>) {
    && next.log == w.log + ext
    && OnlyRelays(ext)
    && forall slot :: Get(next.allowance, slot) + Relays(ext, slot) == Get(w.allowance, slot)
  }

  lemma {:induction false} RelaysOfConcat(a: seq<Event>, b: seq<Event>, slot: Slot)
    ensures Relays(a + b, slot) == Relays(a, slot) + Relays(b, slot)
  {
    if b == [] {
      assert a + b == a;
    } else {
      assert (a + b)[..|a + b| - 1] == a + b[..|b| - 1];
      RelaysOfConcat(a, b[..|b| - 1], slot);
    }
  }

  lemma DrawsCompose(w: World, mid: World, next: World, first: seq<Event>, second: seq<Event>)
    requires Draws(w, mid, first) && Draws(mid, next, second)
    ensures Draws(w, next, first + second)
  {
    assert next.log == w.log + (first + second);
    forall slot
      ensures Get(next.allowance, slot) + Relays(first + second, slot) == Get(w.allowance, slot)
    {
      RelaysOfConcat(first, second, slot);
    }
  }

  lemma ConsumeDraws(w: World, slot: Slot)
    requires Consume(w, slot).Some?
    ensures Draws(w, Consume(w, slot).value, [Relayed(slot)])
  {
    forall other
      ensures Relays([Relayed(slot)], other) == if other == slot then 1 else 0
    {
      assert [Relayed(slot)] == [] + [Relayed(slot)];
      CountsOfAppend([], Relayed(slot), other);
    }
  }

  lemma {:induction false} ActionDraws(w: World, act: Action) returns (ext: seq<Event>)
    requires NoValidate(act) && RunAction(w, act).Some?
    ensures Draws(w, RunAction(w, act).value, ext)
    decreases act
  {
    ext := [];
    match act
    case Relay(slot, inner, reverts, _) =>
      if Consume(w, slot).Some? && Run(Consume(w, slot).value, inner).Some? && !reverts {
        var consumed := Consume(w, slot).value;
        ConsumeDraws(w, slot);
        var more := RunDraws(consumed, inner);
        DrawsCompose(w, consumed, Run(consumed, inner).value, [Relayed(slot)], more);
        ext := [Relayed(slot)] + more;
      }
    case Simulate(_, _, _, _) =>
    case Call(body, reverts, _) =>
      if Run(w, body).Some? && !reverts {
        ext := RunDraws(w, body);
      }
  }

  /** Execution only draws on what validation granted. */
  lemma {:induction false} RunDraws(w: World, acts: seq<Action>) returns (ext: seq<Event>)
    requires NoValidateAny(acts) && Run(w, acts).Some?
    ensures Draws(w, Run(w, acts).value, ext)
    decreases acts
  {
    ext := [];
    if acts == [] {
    } else {
      var mid := RunAction(w, acts[0]).value;
      var first := ActionDraws(w, acts[0]);
      var second := RunDraws(mid, acts[1..]);
      DrawsCompose(w, mid, Run(mid, acts[1..]).value, first, second);
      ext := first + second;
    }
  }

  // ------------------------------------------------------------ the slots

  /** The transient sponsorship slots of the paymaster. */
  class SponsorshipSlots {
    var slots: map<Slot, nat>

    constructor ()
      ensures slots == map[]
    {
      slots := map[];
    }

    method GrantSponsorship(slot: Slot)
      modifies this
      ensures forall log :: World(slots, log + [Granted(slot)]) == Grant(World(old(slots), log), slot)
      ensures slots == old(slots)[slot := old(Get(slots, slot)) + 1]
    {
      slots := slots[slot := Get(slots, slot) + 1];
    }

    method ConsumeSponsorship(slot: Slot) returns (ok: bool)
      modifies this
      ensures ok <==> old(Get(slots, slot)) > 0
      ensures ok ==> slots == old(slots)[slot := old(Get(slots, slot)) - 1]
      ensures ok ==> forall log :: Consume(World(old(slots), log), slot) == Some(World(slots, log + [Relayed(slot)]))
      ensures !ok ==> unchanged(this)
    {
      var allowance := Get(slots, slot);
      if allowance == 0 {
        return false;
      }
      slots := slots[slot := allowance - 1];
      return true;
    }
  }
}
