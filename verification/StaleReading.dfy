/**
 Exactly when a deposit reading is good enough. A check compares a reading taken before an await
 with a sum taken after it. What the chain charges in between is covered as long as the charged
 entries are still in the sum. For every other combination of numbers in which the check can pass
 this module gives a run after which something is not covered, and, starting from a deposit that
 covers everything, one in which the same deposit is promised twice.
 */
module StaleReading {
  import opened Common
  import opened SponsorshipStore
  import opened Signing
  import opened Budget

  /** The deposit read, the deposit when the check runs, and the charges that are still summed up. */
  datatype Numbers = Numbers(reading: nat, deposit: nat, summed: nat)

  /** Too much was charged out of sight, and the check can still pass. */
  predicate Stale(c: Config, x: Numbers) {
    x.reading > x.deposit + x.summed && x.reading >= c.minDeposit + x.summed
  }

  // ------------------------------------------------------------ runs step by step

  ghost predicate Reaches(c: Config, start: State, steps: seq<Step>, s: State) {
    Init(start) && ValidRun(c, start, steps) && After(c, start, steps) == s
  }

  ghost predicate Reachable(c: Config, s: State) {
    exists start, steps :: Reaches(c, start, steps, s)
  }

  /** One more step of a run. */
  lemma Next(c: Config, start: State, steps: seq<Step>, s: State, step: Step, t: State) returns (more: seq<Step>)
    requires Reaches(c, start, steps, s) && Enabled(s, step) && Apply(c, s, step) == t
    ensures Reaches(c, start, more, t)
  {
    hide Init, Apply, Enabled;
    Extend(c, start, steps, step);
    more := steps + [step];
  }

  // ------------------------------------------------------------ the states of the failing runs

  /**
   The numbers of a failing run, with what key 1 and the new request can cost. Key 1 stays live,
   key 2 is charged and pruned, key 3 is charged and stays, key 4 is the new request.
   */
  datatype Plan = Plan(c: Config, x: Numbers, kept: nat, cost: nat)

  /** The reading is too high, but has room for everything that the check will sum up. */
  predicate Works(p: Plan) {
    && p.x.reading > p.x.deposit + p.x.summed
    && p.x.reading >= p.c.minDeposit + p.kept + p.x.summed + p.cost
    && (p.c.costLimit.Some? ==> p.cost <= p.c.costLimit.value)
  }

  /** What is charged and then pruned. */
  function Lost(p: Plan): nat
    requires Works(p)
  {
    p.x.reading - p.x.deposit - p.x.summed
  }

  ghost function OldNote(validUntil: nat, cost: nat): Note {
    Note(validUntil, 0, 0, Signed, Restored, Some(cost))
  }

  ghost function OldNotes(p: Plan): Notes
    requires Works(p)
  {
    map[1 := OldNote(20, p.kept), 2 := OldNote(10, Lost(p)), 3 := OldNote(20, p.x.summed)]
  }

  ghost function NewNote(p: Plan): Note {
    Note(10 + p.c.ttl, 0, 0, Pending, Token(0, 1), Some(p.cost))
  }

  ghost function AllNotes(p: Plan): Notes
    requires Works(p)
  {
    OldNotes(p)[4 := NewNote(p)]
  }

  ghost function OldIssued(p: Plan, lost: bool, charged: bool): seq<Issued>
    requires Works(p)
  {
    [Issued(1, 20, Some(p.kept), false), Issued(2, 10, Some(Lost(p)), lost), Issued(3, 20, Some(p.x.summed), charged)]
  }

  /** Three live signatures of an earlier process. */
  ghost function Start(p: Plan): State
    requires Works(p)
  {
    State(10, p.x.reading, SignedEntries(OldNotes(p)), Down, OldIssued(p, false, false), false, {})
  }

  ghost function Requests(p: Plan, stage: Stage): map<RequestId, Request> {
    map[7 := Request(4, Token(0, 1), 10, 10 + p.c.ttl, p.cost, stage)]
  }

  ghost function During(p: Plan, now: nat, deposit: nat, notes: Notes, stage: Stage,
                        lost: bool, charged: bool, vouched: bool): State
    requires Works(p)
  {
    State(now, deposit, SignedEntries(OldNotes(p)), Up(notes, 1, Requests(p, stage)),
          OldIssued(p, lost, charged), vouched, (if lost then {2} else {}) + if charged then {3} else {})
  }

  ghost function Started(p: Plan): State
    requires Works(p)
  {
    Start(p).(process := Up(OldNotes(p), 0, map[]))
  }

  /** What the prune one second later leaves. */
  ghost function LeftNotes(p: Plan): Notes
    requires Works(p)
  {
    Prune(AllNotes(p), 11)
  }

  /** Before the two charges, and while the charges are made. */
  ghost function Reading(p: Plan, deposit: nat, lost: bool, charged: bool): State
    requires Works(p)
  {
    During(p, 10, deposit, AllNotes(p), DepositRead(p.x.reading), lost, charged, false)
  }

  ghost function AtTheCheck(p: Plan): State
    requires Works(p)
  {
    During(p, 11, p.x.deposit, LeftNotes(p), DepositRead(p.x.reading), true, true, false)
  }

  /** After the check, at one of the later awaits. */
  ghost function Checked(p: Plan, stage: Stage): State
    requires Works(p)
  {
    During(p, 11, p.x.deposit, LeftNotes(p), stage, true, true, true)
  }

  // ------------------------------------------------------------ their steps

  lemma StartIsInitial(p: Plan)
    requires Works(p)
    ensures Init(Start(p))
  {
  }

  lemma RestartStep(p: Plan)
    requires Works(p)
    ensures Apply(p.c, Start(p), Restart(true)) == Started(p)
  {
    LoadOfSigned(OldNotes(p), 10);
    assert Load(SignedEntries(OldNotes(p)), 10) == OldNotes(p);
  }

  lemma BeginStep(p: Plan)
    requires Works(p)
    ensures Apply(p.c, Started(p), Begin(7, 4, 0, 0, p.cost, 0))
         == During(p, 10, p.x.reading, AllNotes(p), Resolving, false, false, false)
  {
    hide SignedEntries;
    var t := Apply(p.c, Started(p), Begin(7, 4, 0, 0, p.cost, 0));
    assert Prune(OldNotes(p), 10) == OldNotes(p);
    assert t.process.requests == Requests(p, Resolving);
    assert t.settledKeys == {};
  }

  lemma StageStep(p: Plan, s: State, stage: Stage, next: Stage)
    requires s.process.Up? && s.process.requests == Requests(p, stage)
    ensures SetStage(s, 7, next) == s.(process := s.process.(requests := Requests(p, next)))
  {
    assert SetStage(s, 7, next).process.requests == Requests(p, next);
  }

  /** The two charges: key 2 for all it may cost, then key 3. */
  lemma ChargeSteps(p: Plan)
    requires Works(p)
    ensures Apply(p.c, Reading(p, p.x.reading, false, false), Settle(1, Lost(p)))
         == Reading(p, p.x.deposit + p.x.summed, true, false)
    ensures Apply(p.c, Reading(p, p.x.deposit + p.x.summed, true, false), Settle(2, p.x.summed))
         == Reading(p, p.x.deposit, true, true)
  {
    hide SignedEntries;
  }

  lemma PruneStep(p: Plan)
    requires Works(p)
    ensures Apply(p.c, Reading(p, p.x.deposit, true, true).(now := 11), StatusPrune) == AtTheCheck(p)
  {
    hide SignedEntries, Prune;
  }

  lemma RunToReading(p: Plan) returns (steps: seq<Step>)
    requires Works(p)
    ensures Reaches(p.c, Start(p), steps, Reading(p, p.x.reading, false, false))
  {
    var start := Start(p);
    StartIsInitial(p);
    assert Reaches(p.c, start, [], start);
    hide Reaches, SignedEntries, Prune, OldNotes;
    RestartStep(p);
    steps := Next(p.c, start, [], start, Restart(true), Started(p));
    BeginStep(p);
    var s := During(p, 10, p.x.reading, AllNotes(p), Resolving, false, false, false);
    steps := Next(p.c, start, steps, Started(p), Begin(7, 4, 0, 0, p.cost, 0), s);
    StageStep(p, s, Resolving, ReadingDeposit);
    var t := During(p, 10, p.x.reading, AllNotes(p), ReadingDeposit, false, false, false);
    steps := Next(p.c, start, steps, s, Resolved(7), t);
    StageStep(p, t, ReadingDeposit, DepositRead(p.x.reading));
    steps := Next(p.c, start, steps, t, NodeAnswers(7), Reading(p, p.x.reading, false, false));
  }

  /** The run up to the check: read, charged twice, a second later pruned. */
  lemma RunToCheck(p: Plan) returns (steps: seq<Step>)
    requires Works(p)
    ensures Reaches(p.c, Start(p), steps, AtTheCheck(p))
  {
    hide Reaches, SignedEntries, Prune;
    var start := Start(p);
    steps := RunToReading(p);
    ChargeSteps(p);
    var s, t := Reading(p, p.x.reading, false, false), Reading(p, p.x.deposit + p.x.summed, true, false);
    steps := Next(p.c, start, steps, s, Settle(1, Lost(p)), t);
    s := Reading(p, p.x.deposit, true, true);
    steps := Next(p.c, start, steps, t, Settle(2, p.x.summed), s);
    t := s.(now := 11);
    steps := Next(p.c, start, steps, s, Tick(1), t);
    PruneStep(p);
    steps := Next(p.c, start, steps, t, StatusPrune, AtTheCheck(p));
  }

  // ------------------------------------------------------------ the check

  /** The costs of what the prune left; with a lifetime of zero the new request's note has expired too. */
  lemma LeftCosts(p: Plan)
    requires Works(p)
    ensures var two: map<Key, nat> := map[1 := p.kept, 3 := p.x.summed];
      Costs(LeftNotes(p)) == if p.c.ttl > 0 then two[4 := p.cost] else two
    ensures Prune(LeftNotes(p), 10) == LeftNotes(p) && AllCostsKnown(LeftNotes(p))
    ensures StillSummed(LeftNotes(p), {2} + {3}, 10) == map[3 := p.x.summed]
  {
  }

  lemma SumOfThree(a: nat, b: nat, d: nat)
    ensures var two: map<Key, nat> := map[1 := a, 3 := b];
      Sum(two) == a + b && Sum(two[4 := d]) == a + b + d
  {
    var one: map<Key, nat> := map[1 := a];
    SumUpdate(map[], 1, a);
    SumUpdate(one, 3, b);
    SumUpdate(one[3 := b], 4, d);
    assert one == map[][1 := a] && one[3 := b] == map[1 := a, 3 := b];
  }

  lemma SumOfOne(b: nat)
    ensures Sum<Key>(map[3 := b]) == b
  {
    SumUpdate<Key>(map[], 3, b);
  }

  /** What the check compares: the old reading has room for the sum. */
  lemma SumAtCheck(p: Plan)
    requires Works(p)
    ensures AllCostsKnown(Prune(LeftNotes(p), 10))
    ensures Sum(Costs(Prune(LeftNotes(p), 10))) + p.c.minDeposit <= p.x.reading
    ensures Sum(StillSummed(LeftNotes(p), {2} + {3}, 10)) == p.x.summed
  {
    hide Sum, Costs, LeftNotes, Prune, StillSummed, AllCostsKnown;
    LeftCosts(p);
    SumOfThree(p.kept, p.x.summed, p.cost);
    SumOfOne(p.x.summed);
  }

  lemma CheckPasses(p: Plan)
    requires Works(p)
    ensures ChecksAt(p.c, AtTheCheck(p), 7, p.x)
    ensures Apply(p.c, AtTheCheck(p), CheckBudget(7)) == Checked(p, Registration)
  {
    hide SignedEntries, OldNotes, LeftNotes, StillSummed, Costs, Prune, AllCostsKnown;
    SumAtCheck(p);
    StageStep(p, AtTheCheck(p), DepositRead(p.x.reading), Registration);
  }

  /** The live signature that the sum contained can be more than what is left of the deposit. */
  lemma CheckUncovers(p: Plan)
    requires Works(p) && p.x.deposit < p.kept + p.c.minDeposit
    ensures !Covered(p.c, Checked(p, Registration))
  {
    var t := Checked(p, Registration);
    assert Counted(t, 1) && Liability(t)[1] == p.kept;
    PartOfSum(Liability(t), 1);
  }

  // ------------------------------------------------------------ exactly which readings are safe

  /** Request `id` passes its check with these numbers. */
  ghost predicate ChecksAt(c: Config, s: State, id: RequestId, x: Numbers) {
    && Enabled(s, CheckBudget(id))
    && PassesCheck(c, s, CheckBudget(id))
    && s.process.requests[id].stage.deposit == x.reading
    && s.deposit == x.deposit
    && SummedCharges(s, s.process.requests[id]) == x.summed
  }

  ghost predicate CoversAt(c: Config, s: State, id: RequestId, x: Numbers) {
    ChecksAt(c, s, id, x) ==> Covered(c, Apply(c, s, CheckBudget(id)))
  }

  /**
   In every reachable state a check with these numbers leaves the deposit covering everything,
   exactly when the reading is not above the deposit plus the charges still summed up, or is so low
   that the check cannot pass.
   Reachable is from any initial state, including one in which signatures of an earlier process
   already exceed the deposit; the last lemma of this module starts from a deposit that covers them.
   */
  lemma SafeReadings(c: Config, x: Numbers)
    ensures (forall s: State, id: RequestId | Reachable(c, s) :: CoversAt(c, s, id, x))
      <==> x.reading <= x.deposit + x.summed || x.reading < c.minDeposit + x.summed
  {
    if Stale(c, x) {
      var p := Plan(c, x, x.reading - c.minDeposit - x.summed, 0);
      hide Reaches, ChecksAt, Covered, During, AtTheCheck;
      var steps := RunToCheck(p);
      CheckPasses(p);
      CheckUncovers(p);
      assert Reachable(c, AtTheCheck(p)) && !CoversAt(c, AtTheCheck(p), 7, x);
    } else {
      forall s: State, id: RequestId | Reachable(c, s)
        ensures CoversAt(c, s, id, x)
      {
        if ChecksAt(c, s, id, x) {
          ReachableIsSafe(c, s);
          SummedFits(c, s, id, x);
          CheckCovers(c, s, id);
        }
      }
    }
  }

  lemma ReachableIsSafe(c: Config, s: State)
    requires Reachable(c, s)
    ensures Safe(s)
  {
    hide Safe, Init;
    var start, steps :| Reaches(c, start, steps, s);
    SafeAtStart(start);
    RunIsSafe(c, start, steps);
  }

  /** The charges still summed up are part of what a passing check has compared. */
  lemma SummedFits(c: Config, s: State, id: RequestId, x: Numbers)
    requires ChecksAt(c, s, id, x)
    ensures x.reading >= c.minDeposit + x.summed
  {
    var r := s.process.requests[id];
    SumMonotone(StillSummed(s.process.notes, s.settledKeys, r.started), Costs(Prune(s.process.notes, r.started)));
  }

  // ------------------------------------------------------------ the deposit promised twice

  /** The first and the last of the signatures are live and uncharged. */
  lemma ExposureAtEnd(p: Plan, end: State)
    requires Works(p) && p.c.ttl > 0 && end.now == 11
    requires end.issued == OldIssued(p, true, true) + [Issued(4, 10 + p.c.ttl, Some(p.cost), false)]
    ensures Exposure(end.issued, end.now) >= p.kept + p.cost
  {
    ExposureOfNext(OldIssued(p, true, true), end.issued[3], end.now);
    ExposureHolds(OldIssued(p, true, true), end.now, 0);
  }

  lemma {:induction false} ExposureHolds(issued: seq<Issued>, now: nat, i: nat)
    requires i < |issued| && LiveAt(issued[i], now) && !issued[i].settled && issued[i].cost.Some?
    ensures Exposure(issued, now) >= issued[i].cost.value
  {
    if i == |issued| - 1 {
    } else {
      ExposureHolds(issued[..|issued| - 1], now, i);
    }
  }

  lemma ExposureOfNext(issued: seq<Issued>, i: Issued, now: nat)
    requires i.cost.Some? && LiveAt(i, now) && !i.settled
    ensures Exposure(issued + [i], now) == Exposure(issued, now) + i.cost.value
  {
    assert (issued + [i])[..|issued|] == issued;
  }

  lemma ExposureAtStart(p: Plan)
    requires Works(p)
    ensures Exposure(Start(p).issued, Start(p).now) == p.kept + Lost(p) + p.x.summed
  {
    var issued := OldIssued(p, false, false);
    ExposureOfNext([], issued[0], 10);
    ExposureOfNext([issued[0]], issued[1], 10);
    ExposureOfNext([issued[0], issued[1]], issued[2], 10);
    assert [] + [issued[0]] == [issued[0]] && [issued[0]] + [issued[1]] == [issued[0], issued[1]];
    assert [issued[0], issued[1]] + [issued[2]] == issued;
  }

  lemma CommitStep(p: Plan)
    requires Works(p) && p.c.ttl > 0
    ensures var t := Apply(p.c, Checked(p, MakingSignature), Step.Commit(7, true));
      && t.issued == OldIssued(p, true, true) + [Issued(4, 10 + p.c.ttl, Some(p.cost), false)]
      && t.now == 11 && t.deposit == p.x.deposit
  {
  }

  lemma RunToSignature(p: Plan, checked: seq<Step>) returns (steps: seq<Step>)
    requires Works(p) && Reaches(p.c, Start(p), checked, Checked(p, Registration))
    ensures Reaches(p.c, Start(p), steps, Checked(p, MakingSignature))
  {
    hide Reaches, SignedEntries, OldNotes, LeftNotes, OldIssued;
    var start := Start(p);
    StageStep(p, Checked(p, Registration), Registration, Simulation);
    steps := Next(p.c, start, checked, Checked(p, Registration), Passed(7), Checked(p, Simulation));
    StageStep(p, Checked(p, Simulation), Simulation, BundlerSimulation);
    steps := Next(p.c, start, steps, Checked(p, Simulation), Passed(7), Checked(p, BundlerSimulation));
    StageStep(p, Checked(p, BundlerSimulation), BundlerSimulation, MakingSignature);
    steps := Next(p.c, start, steps, Checked(p, BundlerSimulation), Passed(7), Checked(p, MakingSignature));
  }

  /** The whole run, from the start to the issued signature. */
  lemma RunToIssue(p: Plan) returns (steps: seq<Step>, end: State)
    requires Works(p) && p.c.ttl > 0
    ensures Reaches(p.c, Start(p), steps, end) && end.now == 11 && end.deposit == p.x.deposit
    ensures end.issued == OldIssued(p, true, true) + [Issued(4, 10 + p.c.ttl, Some(p.cost), false)]
  {
    CommitStep(p);
    hide Reaches, SignedEntries, OldNotes, LeftNotes, OldIssued;
    steps := RunToCheck(p);
    CheckPasses(p);
    steps := Next(p.c, Start(p), steps, AtTheCheck(p), CheckBudget(7), Checked(p, Registration));
    steps := RunToSignature(p, steps);
    end := Apply(p.c, Checked(p, MakingSignature), Step.Commit(7, true));
    steps := Next(p.c, Start(p), steps, Checked(p, MakingSignature), Step.Commit(7, true), end);
  }

  lemma NotCoveredIsNotFresh(c: Config, start: State, steps: seq<Step>, end: State)
    requires Reaches(c, start, steps, end)
    requires |end.issued| > |start.issued| && end.deposit < Exposure(end.issued, end.now) + c.minDeposit
    ensures !FreshRun(c, start, steps)
  {
    hide FreshRun, ValidRun, After, Init;
    if FreshRun(c, start, steps) {
      DepositCoversLiveSignatures(c, start, steps);
    }
  }

  /**
   From a deposit that exactly covers the live signatures and the reserve: for every reading above
   the deposit plus the charges still summed up, and every cost the relayer accepts up to that
   excess, a run in which a signature of that cost is issued and the deposit no longer covers
   what is live. (The reserve is never touched by charges alone, so the deposit at the check is at
   least that; with a lifetime of zero the prune would drop the request's own reservation too.)
   */
  lemma StaleReadingIsNotCovered(c: Config, x: Numbers, cost: nat) returns (start: State, steps: seq<Step>, end: State)
    requires x.reading > x.deposit + x.summed && x.deposit >= c.minDeposit && c.ttl > 0
    requires 0 < cost <= x.reading - x.deposit - x.summed && (c.costLimit.Some? ==> cost <= c.costLimit.value)
    ensures Reaches(c, start, steps, end) && !FreshRun(c, start, steps)
    ensures start.deposit == x.reading == Exposure(start.issued, start.now) + c.minDeposit
    ensures |end.issued| == |start.issued| + 1 && end.issued[|start.issued|].cost == Some(cost)
    ensures end.deposit == x.deposit < Exposure(end.issued, end.now) + c.minDeposit
  {
    var p := Plan(c, x, x.deposit - c.minDeposit, cost);
    start := Start(p);
    ExposureAtStart(p);
    hide Reaches, FreshRun, Exposure;
    steps, end := RunToIssue(p);
    ExposureAtEnd(p, end);
    NotCoveredIsNotFresh(c, start, steps, end);
  }
}
