/**
 The deposit budget over runs of the signing protocol: what the live signatures can still cost
 is covered by the deposit, with the reserve on top.
 */
module Budget {
  import opened Common
  import opened SponsorshipStore
  import opened Signing

  /** The notes a state stands for: those in memory, or those a restart would load. */
  ghost function Recorded(s: State): Notes {
    if s.process.Up? then s.process.notes else Load(s.file, s.now)
  }

  /** Some request that holds the note has passed the budget check. */
  ghost predicate CheckedFor(s: State, k: Key, token: Token) {
    s.process.Up? &&
    exists id ::
      && id in s.process.requests
      && s.process.requests[id].key == k && s.process.requests[id].token == token
      && BudgetChecked(s.process.requests[id].stage)
  }

  /** A live entry that is signed, or that can become signed without another budget check. */
  ghost predicate Counted(s: State, k: Key) {
    && k in Recorded(s)
    && Live(Recorded(s)[k], s.now)
    && (Recorded(s)[k].status == Signed || CheckedFor(s, k, Recorded(s)[k].token))
  }

  /** What an entry can still cost: nothing once its operation has been charged. */
  ghost function Owed(s: State, k: Key): nat
    requires k in Recorded(s)
  {
    if k in s.settledKeys then 0 else CostOf(Recorded(s)[k])
  }

  ghost function Liability(s: State): map<Key, nat> {
    map k | k in Recorded(s) && Counted(s, k) :: Owed(s, k)
  }

  /** Nothing passes the budget check, and so nothing is issued, while an unknown cost is live. */
  ghost predicate CostsKnown(s: State) {
    && (s.process.Up? ==> forall id | id in s.process.requests && BudgetChecked(s.process.requests[id].stage) :: s.vouched)
    && (s.vouched ==> forall k | Counted(s, k) :: Recorded(s)[k].maxGasCost.Some?)
  }

  /** Once a budget check has passed, the deposit covers every counted entry and the reserve. */
  ghost predicate Covered(c: Config, s: State) {
    s.vouched ==> s.deposit >= Sum(Liability(s)) + c.minDeposit
  }

  // ------------------------------------------------------------ one step

  /** No entry counts for more than before. */
  ghost predicate NoMoreOwed(s: State, t: State) {
    forall k | Counted(t, k) :: Counted(s, k) && Owed(t, k) <= Owed(s, k)
      && Recorded(t)[k].maxGasCost == Recorded(s)[k].maxGasCost
  }

  lemma NoMoreOwedKeepsCovered(c: Config, s: State, t: State)
    requires Covered(c, s) && NoMoreOwed(s, t)
    requires t.deposit >= s.deposit && t.vouched == s.vouched
    ensures Covered(c, t)
  {
    SumMonotone(Liability(t), Liability(s));
  }

  lemma BeginOwesNoMore(c: Config, s: State, step: Step)
    requires Safe(s) && step.Begin? && Enabled(s, step)
    ensures NoMoreOwed(s, Apply(c, s, step))
  {
  }

  lemma RefuseOwesNoMore(s: State, id: RequestId)
    requires Safe(s) && Runs(s, id)
    ensures NoMoreOwed(s, Refuse(s, id))
  {
  }

  lemma CommitOwesNoMore(c: Config, s: State, id: RequestId, writes: bool)
    requires Safe(s) && Enabled(s, Commit(id, writes))
    ensures NoMoreOwed(s, Apply(c, s, Commit(id, writes)))
  {
  }

  lemma CrashOwesNoMore(c: Config, s: State, step: Step)
    requires Safe(s) && Enabled(s, step)
    requires step.Crash? || step.CrashInCommit? || step.Restart?
    ensures NoMoreOwed(s, Apply(c, s, step))
  {
  }

  /** A charge takes no more than the settled entry was counted for. */
  lemma SettleOwesLess(c: Config, s: State, i: nat, charge: nat)
    requires Safe(s) && Enabled(s, Settle(i, charge))
    ensures var t := Apply(c, s, Settle(i, charge));
      && NoMoreOwed(s, t)
      && (s.issued[i].cost.Some? ==> Sum(Liability(t)) + charge <= Sum(Liability(s)))
      && Counted(s, s.issued[i].key) && Recorded(s)[s.issued[i].key].maxGasCost == s.issued[i].cost
  {
    var t := Apply(c, s, Settle(i, charge));
    var k := s.issued[i].key;
    assert InFile(s.file, s.issued[i]);
    assert Counted(s, k) && Owed(s, k) == CostOf(Recorded(s)[k]);
    assert Liability(t) == Liability(s)[k := 0];
    SumUpdate(Liability(s), k, 0);
  }

  lemma StageOwesNoMore(s: State, id: RequestId, stage: Stage)
    requires Safe(s) && Runs(s, id)
    requires BudgetChecked(stage) ==> BudgetChecked(s.process.requests[id].stage)
    ensures NoMoreOwed(s, SetStage(s, id, stage))
  {
  }

  lemma WorldOwesNoMore(c: Config, s: State, step: Step)
    requires Safe(s) && Enabled(s, step)
    requires step.Tick? || step.TopUp? || step.StatusPrune?
    ensures NoMoreOwed(s, Apply(c, s, step))
  {
  }

  /** The one step after which more is owed: a request passes the budget check. */
  ghost predicate PassesCheck(c: Config, s: State, step: Step)
    requires Enabled(s, step)
  {
    step.CheckBudget? &&
    BudgetPasses(c, s.process.notes, s.process.requests[step.id], s.process.requests[step.id].stage.deposit)
  }

  lemma StepOwesNoMore(c: Config, s: State, step: Step)
    requires Safe(s) && Enabled(s, step) && !PassesCheck(c, s, step)
    ensures NoMoreOwed(s, Apply(c, s, step)) && Apply(c, s, step).vouched == s.vouched
  {
    hide Safe, Refuse, BeginRequest, CommitRequest, BudgetPasses, NoMoreOwed;
    match step
    case Begin(_, _, _, _, _, _) =>
      BeginOwesNoMore(c, s, step);
      OnlyChecksVouch(c, s, step);
    case Commit(id, writes) =>
      CommitOwesNoMore(c, s, id, writes);
      OnlyChecksVouch(c, s, step);
    case Settle(i, charge) => SettleOwesLess(c, s, i, charge);
    case Crash => CrashOwesNoMore(c, s, step);
    case CrashInCommit(_) => CrashOwesNoMore(c, s, step);
    case Restart(_) => CrashOwesNoMore(c, s, step);
    case Resolved(id) =>
      RefuseOwesNoMore(s, id);
      StageOwesNoMore(s, id, ReadingDeposit);
      OnlyChecksVouch(c, s, step);
    case NodeAnswers(id) => StageOwesNoMore(s, id, DepositRead(s.deposit));
    case Passed(id) => StageOwesNoMore(s, id, AfterPassing(s.process.requests[id].stage));
    case CheckBudget(id) =>
      RefuseOwesNoMore(s, id);
      OnlyChecksVouch(c, s, step);
    case Failed(id) =>
      RefuseOwesNoMore(s, id);
      OnlyChecksVouch(c, s, step);
    case _ => WorldOwesNoMore(c, s, step);
  }

  lemma OnlyChecksVouch(c: Config, s: State, step: Step)
    requires Enabled(s, step)
    ensures Apply(c, s, step).vouched == (s.vouched || PassesCheck(c, s, step))
    ensures !step.Settle? ==> Apply(c, s, step).deposit >= s.deposit
  {
  }

  // ------------------------------------------------------------ unknown costs

  lemma CheckKeepsCostsKnown(c: Config, s: State, id: RequestId)
    requires Safe(s) && CostsKnown(s) && Enabled(s, CheckBudget(id)) && PassesCheck(c, s, CheckBudget(id))
    ensures CostsKnown(Apply(c, s, CheckBudget(id)))
  {
    var t := Apply(c, s, CheckBudget(id));
    forall k | Counted(t, k)
      ensures Recorded(t)[k].maxGasCost.Some?
    {
      assert k in Prune(s.process.notes, s.process.requests[id].started);
    }
  }

  lemma CheckedRequestsWereChecked(c: Config, s: State, step: Step, id: RequestId)
    requires Enabled(s, step) && !PassesCheck(c, s, step)
    requires Runs(Apply(c, s, step), id) && BudgetChecked(Apply(c, s, step).process.requests[id].stage)
    ensures Runs(s, id) && BudgetChecked(s.process.requests[id].stage)
  {
    hide BudgetPasses;
  }

  lemma StepKeepsCostsKnown(c: Config, s: State, step: Step)
    requires Safe(s) && CostsKnown(s) && Enabled(s, step)
    ensures CostsKnown(Apply(c, s, step))
  {
    hide Safe, Apply, Enabled;
    if PassesCheck(c, s, step) {
      CheckKeepsCostsKnown(c, s, step.id);
    } else {
      var t := Apply(c, s, step);
      StepOwesNoMore(c, s, step);
      if t.process.Up? {
        forall id | id in t.process.requests && BudgetChecked(t.process.requests[id].stage)
          ensures t.vouched
        {
          CheckedRequestsWereChecked(c, s, step, id);
        }
      }
    }
  }

  lemma {:induction false} RunKeepsCostsKnown(c: Config, s: State, steps: seq<Step>)
    requires Safe(s) && CostsKnown(s) && ValidRun(c, s, steps)
    ensures CostsKnown(After(c, s, steps)) && Safe(After(c, s, steps))
    decreases |steps|
  {
    hide Safe, CostsKnown, Apply, Enabled;
    if steps == [] {
    } else {
      StepIsSafe(c, s, steps[0]);
      StepKeepsCostsKnown(c, s, steps[0]);
      RunKeepsCostsKnown(c, Apply(c, s, steps[0]), steps[1..]);
    }
  }

  /** In every interleaving, no signature is issued while an entry without a cost is live. */
  lemma NothingIssuedOverUnknownCosts(c: Config, s: State, steps: seq<Step>, step: Step)
    requires Init(s) && ValidRun(c, s, steps) && Enabled(After(c, s, steps), step)
    requires var end := After(c, s, steps);
      |Apply(c, end, step).issued| > |end.issued|
    ensures var end := After(c, s, steps);
      && (forall k | k in end.file && Restorable(end.file[k], end.now) :: end.file[k].maxGasCost.Some?)
      && (forall i | 0 <= i < |end.issued| && LiveAt(end.issued[i], end.now) :: end.issued[i].cost.Some?)
  {
    var end := After(c, s, steps);
    SafeAtStart(s);
    RunKeepsCostsKnown(c, s, steps);
    IssuingIsVouched(c, end, step);
    forall k | k in end.file && Restorable(end.file[k], end.now)
      ensures end.file[k].maxGasCost.Some?
    {
      assert Counted(end, k);
    }
    forall i | 0 <= i < |end.issued| && LiveAt(end.issued[i], end.now)
      ensures end.issued[i].cost.Some?
    {
      assert InFile(end.file, end.issued[i]);
    }
  }

  lemma IssuingIsVouched(c: Config, s: State, step: Step)
    requires CostsKnown(s) && Enabled(s, step) && |Apply(c, s, step).issued| > |s.issued|
    ensures s.process.Up? && s.vouched
  {
  }

  // ------------------------------------------------------------ the deposit covers what was issued

  /** The entries that a check started at `started` still sums up although the chain has charged them. */
  ghost function StillSummed(notes: Notes, settledKeys: set<Key>, started: nat): map<Key, nat> {
    map k | k in Prune(notes, started) && k in settledKeys :: CostOf(notes[k])
  }

  ghost function SummedCharges(s: State, r: Request): nat
    requires s.process.Up?
  {
    Sum(StillSummed(s.process.notes, s.settledKeys, r.started))
  }

  /**
   The deposit a passing check compares with is not above the deposit when the check runs, except
   for charges whose entries the check still sums up.
   */
  ghost predicate FreshAt(c: Config, s: State, step: Step)
    requires Enabled(s, step)
  {
    PassesCheck(c, s, step) ==>
      var r := s.process.requests[step.id];
      r.stage.deposit <= s.deposit + SummedCharges(s, r)
  }

  ghost predicate FreshRun(c: Config, s: State, steps: seq<Step>)
    requires ValidRun(c, s, steps)
    decreases |steps|
  {
    steps == [] || (FreshAt(c, s, steps[0]) && FreshRun(c, Apply(c, s, steps[0]), steps[1..]))
  }

  lemma CheckCovers(c: Config, s: State, id: RequestId)
    requires Safe(s) && Enabled(s, CheckBudget(id))
    requires PassesCheck(c, s, CheckBudget(id)) && FreshAt(c, s, CheckBudget(id))
    ensures Covered(c, Apply(c, s, CheckBudget(id)))
  {
    var r := s.process.requests[id];
    var t := Apply(c, s, CheckBudget(id));
    var costs := Costs(Prune(s.process.notes, r.started));
    SumParts(costs, s.settledKeys);
    assert StillSummed(s.process.notes, s.settledKeys, r.started) == map k | k in costs && k in s.settledKeys :: costs[k];
    SumMonotone(Liability(t), map k | k in costs :: if k in s.settledKeys then 0 else costs[k]);
  }

  lemma StepKeepsCovered(c: Config, s: State, step: Step)
    requires Safe(s) && CostsKnown(s) && Covered(c, s) && Enabled(s, step) && FreshAt(c, s, step)
    ensures Covered(c, Apply(c, s, step))
  {
    hide Safe, Liability, NoMoreOwed;
    if PassesCheck(c, s, step) {
      CheckCovers(c, s, step.id);
    } else {
      StepOwesNoMore(c, s, step);
      OnlyChecksVouch(c, s, step);
      if step.Settle? {
        SettleOwesLess(c, s, step.index, step.charge);
      } else {
        NoMoreOwedKeepsCovered(c, s, Apply(c, s, step));
      }
    }
  }

  lemma {:induction false} RunKeepsCovered(c: Config, s: State, steps: seq<Step>)
    requires Safe(s) && CostsKnown(s) && Covered(c, s) && ValidRun(c, s, steps) && FreshRun(c, s, steps)
    ensures Covered(c, After(c, s, steps))
    ensures |After(c, s, steps).issued| > |s.issued| ==> After(c, s, steps).vouched
    ensures s.vouched ==> After(c, s, steps).vouched
    decreases |steps|
  {
    hide Safe, Covered, Apply, Enabled, CostsKnown;
    if steps == [] {
    } else {
      StepIsSafe(c, s, steps[0]);
      StepKeepsCostsKnown(c, s, steps[0]);
      StepKeepsCovered(c, s, steps[0]);
      OnlyChecksVouch(c, s, steps[0]);
      if |Apply(c, s, steps[0]).issued| > |s.issued| {
        IssuingIsVouched(c, s, steps[0]);
      }
      RunKeepsCovered(c, Apply(c, s, steps[0]), steps[1..]);
    }
  }

  /** What the live signatures that were not charged yet can still cost. */
  ghost function Exposure(issued: seq<Issued>, now: nat): nat {
    if issued == [] then 0 else
      var last := issued[|issued| - 1];
      Exposure(issued[..|issued| - 1], now) +
      if LiveAt(last, now) && !last.settled && last.cost.Some? then last.cost.value else 0
  }

  lemma {:induction false} ExposureIsOwed(issued: seq<Issued>, now: nat, owed: map<Key, nat>)
    requires forall i, j | 0 <= i < j < |issued| && LiveAt(issued[i], now) && LiveAt(issued[j], now) ::
      issued[i].key != issued[j].key
    requires forall i | 0 <= i < |issued| && LiveAt(issued[i], now) && !issued[i].settled && issued[i].cost.Some? ::
      issued[i].key in owed && owed[issued[i].key] == issued[i].cost.value
    ensures Exposure(issued, now) <= Sum(owed)
  {
    if issued == [] {
    } else {
      var rest, last := issued[..|issued| - 1], issued[|issued| - 1];
      assert last == issued[|rest|];
      if LiveAt(last, now) && !last.settled && last.cost.Some? {
        SumSplit(owed, last.key);
        ExposureIsOwed(rest, now, owed - {last.key});
      } else {
        ExposureIsOwed(rest, now, owed);
      }
    }
  }

  lemma ExposureIsCovered(c: Config, s: State)
    requires Safe(s) && CostsKnown(s) && Covered(c, s) && s.vouched
    ensures s.deposit >= Exposure(s.issued, s.now) + c.minDeposit
    ensures forall i | 0 <= i < |s.issued| && LiveAt(s.issued[i], s.now) :: s.issued[i].cost.Some?
  {
    forall i | 0 <= i < |s.issued| && LiveAt(s.issued[i], s.now)
      ensures Counted(s, s.issued[i].key) && Recorded(s)[s.issued[i].key].maxGasCost == s.issued[i].cost
    {
      assert InFile(s.file, s.issued[i]);
    }
    ExposureIsOwed(s.issued, s.now, Liability(s));
  }

  /**
   From the first signature on, in every interleaving whose deposit readings are fresh in the sense
   of `FreshAt`, the deposit covers the reserve and every live signature that has not been charged, restored ones
   included, however much the chain charges within the signed limits.
   */
  lemma DepositCoversLiveSignatures(c: Config, s: State, steps: seq<Step>)
    requires Init(s) && ValidRun(c, s, steps) && FreshRun(c, s, steps)
    requires |After(c, s, steps).issued| > |s.issued|
    ensures var end := After(c, s, steps);
      && end.deposit >= Exposure(end.issued, end.now) + c.minDeposit
      && forall i | 0 <= i < |end.issued| && LiveAt(end.issued[i], end.now) :: end.issued[i].cost.Some?
  {
    hide Safe;
    SafeAtStart(s);
    RunKeepsCostsKnown(c, s, steps);
    RunKeepsCovered(c, s, steps);
    ExposureIsCovered(c, After(c, s, steps));
  }

  // ------------------------------------------------------------ when readings are fresh

  ghost predicate NeverCharged(steps: seq<Step>) {
    forall i | 0 <= i < |steps| :: !steps[i].Settle?
  }

  ghost predicate ReadingsFresh(s: State) {
    s.process.Up? ==> forall id | id in s.process.requests && s.process.requests[id].stage.DepositRead? ::
      s.process.requests[id].stage.deposit <= s.deposit
  }

  lemma StepKeepsReadingsFresh(c: Config, s: State, step: Step)
    requires ReadingsFresh(s) && Enabled(s, step) && !step.Settle?
    ensures ReadingsFresh(Apply(c, s, step)) && FreshAt(c, s, step)
  {
    hide BudgetPasses, Release, Prune, Load, Sign, SignedEntries;
  }

  /** A deposit that never falls makes every reading fresh. */
  lemma {:induction false} NeverChargedIsFresh(c: Config, s: State, steps: seq<Step>)
    requires ReadingsFresh(s) && ValidRun(c, s, steps) && NeverCharged(steps)
    ensures FreshRun(c, s, steps)
    decreases |steps|
  {
    hide Apply, Enabled;
    if steps == [] {
    } else {
      StepKeepsReadingsFresh(c, s, steps[0]);
      NeverChargedIsFresh(c, Apply(c, s, steps[0]), steps[1..]);
    }
  }

  /** Every check follows its own reading immediately. */
  ghost predicate AtomicReadings(steps: seq<Step>) {
    forall i | 0 < i < |steps| && steps[i].CheckBudget? :: steps[i - 1] == NodeAnswers(steps[i].id)
  }

  /** A reading taken together with the sum is fresh, whatever the chain charges in between others. */
  lemma {:induction false} AtomicReadingsAreFresh(c: Config, s: State, steps: seq<Step>)
    requires ValidRun(c, s, steps) && AtomicReadings(steps)
    requires steps != [] ==> FreshAt(c, s, steps[0])
    ensures FreshRun(c, s, steps)
    decreases |steps|
  {
    if steps == [] {
    } else {
      var t := Apply(c, s, steps[0]);
      if |steps| > 1 {
        assert steps[1..][0] == steps[1];
        assert FreshAt(c, t, steps[1]) by {
          if steps[1].CheckBudget? {
            assert steps[0] == NodeAnswers(steps[1].id);
          }
        }
      }
      assert AtomicReadings(steps[1..]) by {
        forall i | 0 < i < |steps[1..]| && steps[1..][i].CheckBudget?
          ensures steps[1..][i - 1] == NodeAnswers(steps[1..][i].id)
        {
          assert steps[1..][i] == steps[i + 1] && steps[1..][i - 1] == steps[i];
        }
      }
      AtomicReadingsAreFresh(c, t, steps[1..]);
    }
  }

  // ------------------------------------------------------------ charges between a reading and its sum

  /**
   A prune, at the start of a request or in `status`, that drops no charged entry which some
   request with an open reading will still sum up.
   */
  ghost predicate DropsNoCharge(s: State, step: Step) {
    s.process.Up? && (step.Begin? || step.StatusPrune?) ==>
      forall id, k | id in s.process.requests && s.process.requests[id].stage.DepositRead? &&
                     k in StillSummed(s.process.notes, s.settledKeys, s.process.requests[id].started) ::
        Live(s.process.notes[k], s.now)
  }

  ghost predicate NoChargeDropped(c: Config, s: State, steps: seq<Step>)
    requires ValidRun(c, s, steps)
    decreases |steps|
  {
    steps == [] || (DropsNoCharge(s, steps[0]) && NoChargeDropped(c, Apply(c, s, steps[0]), steps[1..]))
  }

  /** An open reading is the deposit with the charges that will be summed up, or the check cannot pass. */
  ghost predicate ReadingAccounted(notes: Notes, settledKeys: set<Key>, deposit: nat, r: Request) {
    r.stage.DepositRead? ==>
      || r.stage.deposit <= deposit + Sum(StillSummed(notes, settledKeys, r.started))
      || exists k :: k in StillSummed(notes, settledKeys, r.started) && notes[k].maxGasCost.None?
  }

  ghost predicate ReadingsAccounted(s: State) {
    s.process.Up? ==> forall id | id in s.process.requests ::
      ReadingAccounted(s.process.notes, s.settledKeys, s.deposit, s.process.requests[id])
  }

  /** What a request's check still sums up, before and after a step: the same entries at the same costs. */
  ghost predicate SameCharges(s: State, t: State, r: Request) {
    && s.process.Up? && t.process.Up?
    && (forall k :: k in StillSummed(t.process.notes, t.settledKeys, r.started) <==>
          k in StillSummed(s.process.notes, s.settledKeys, r.started))
    && (forall k | k in StillSummed(s.process.notes, s.settledKeys, r.started) ::
          t.process.notes[k].maxGasCost == s.process.notes[k].maxGasCost)
  }

  lemma SameChargesKeepReading(s: State, t: State, r: Request)
    requires SameCharges(s, t, r) && s.deposit <= t.deposit
    requires ReadingAccounted(s.process.notes, s.settledKeys, s.deposit, r)
    ensures ReadingAccounted(t.process.notes, t.settledKeys, t.deposit, r)
  {
    assert StillSummed(t.process.notes, t.settledKeys, r.started) == StillSummed(s.process.notes, s.settledKeys, r.started);
  }

  /** Requests that were suspended at a reading before, or have just read. */
  lemma SameReadings(c: Config, s: State, step: Step, id: RequestId)
    requires Enabled(s, step) && Runs(Apply(c, s, step), id)
    requires Apply(c, s, step).process.requests[id].stage.DepositRead? && step != NodeAnswers(id)
    ensures Runs(s, id) && s.process.requests[id] == Apply(c, s, step).process.requests[id]
  {
    hide BudgetPasses, Prune, Release, Load, SignedEntries, Sign;
  }

  lemma PruneChargesSame(s: State, r: Request)
    requires s.process.Up?
    requires forall k | k in StillSummed(s.process.notes, s.settledKeys, r.started) :: Live(s.process.notes[k], s.now)
    ensures SameCharges(s, s.(process := s.process.(notes := Prune(s.process.notes, s.now))), r)
  {
  }

  lemma BeginChargesSame(c: Config, s: State, step: Step, r: Request)
    requires step.Begin? && Enabled(s, step)
    requires forall k | k in StillSummed(s.process.notes, s.settledKeys, r.started) :: Live(s.process.notes[k], s.now)
    ensures SameCharges(s, Apply(c, s, step), r)
  {
  }

  lemma RefuseChargesSame(s: State, id: RequestId, r: Request)
    requires Safe(s) && Runs(s, id)
    ensures SameCharges(s, Refuse(s, id), r)
  {
    assert ReservationIntact(s.process.notes, s.settledKeys, s.process.requests[id]);
  }

  lemma CommitChargesSame(s: State, id: RequestId, writes: bool, r: Request)
    requires Safe(s) && Enabled(s, Step.Commit(id, writes))
    ensures SameCharges(s, CommitRequest(s, id, writes), r)
  {
    RefuseChargesSame(s, id, r);
  }

  /** Apart from a charge, a step that drops none leaves the charges of an open reading alone. */
  lemma StepChargesSame(c: Config, s: State, step: Step, id: RequestId)
    requires Safe(s) && Enabled(s, step) && DropsNoCharge(s, step) && !step.Settle?
    requires Runs(Apply(c, s, step), id) && Runs(s, id) && s.process.requests[id].stage.DepositRead?
    ensures SameCharges(s, Apply(c, s, step), s.process.requests[id])
  {
    hide Safe, Refuse, BeginRequest, CommitRequest, BudgetPasses, SameCharges;
    var r := s.process.requests[id];
    NoChargesMoved(s, Apply(c, s, step), r);
    match step
    case Begin(_, _, _, _, _, _) => BeginChargesSame(c, s, step, r);
    case StatusPrune => PruneChargesSame(s, r);
    case Commit(i, writes) => CommitChargesSame(s, i, writes, r);
    case Failed(i) => RefuseChargesSame(s, i, r);
    case Resolved(i) => RefuseChargesSame(s, i, r);
    case CheckBudget(i) => RefuseChargesSame(s, i, r);
    case _ =>
  }

  lemma NoChargesMoved(s: State, t: State, r: Request)
    ensures s.process.Up? && t.process.Up? && t.process.notes == s.process.notes && t.settledKeys == s.settledKeys
      ==> SameCharges(s, t, r)
  {
  }

  /** A charge takes from the deposit no more than it adds to what is summed up though charged. */
  lemma SettleKeepsReading(c: Config, s: State, i: nat, charge: nat, r: Request)
    requires Safe(s) && Enabled(s, Settle(i, charge)) && s.process.Up? && r.started <= s.now
    requires ReadingAccounted(s.process.notes, s.settledKeys, s.deposit, r)
    ensures var t := Apply(c, s, Settle(i, charge));
      ReadingAccounted(t.process.notes, t.settledKeys, t.deposit, r)
  {
    var notes, k := s.process.notes, s.issued[i].key;
    var t := Apply(c, s, Settle(i, charge));
    var before := StillSummed(notes, s.settledKeys, r.started);
    var after := StillSummed(notes, t.settledKeys, r.started);
    assert InFile(s.file, s.issued[i]);
    assert k in notes && Live(notes[k], s.now) && notes[k].maxGasCost == s.issued[i].cost && k !in s.settledKeys;
    assert after == before[k := CostOf(notes[k])];
    SumUpdate(before, k, CostOf(notes[k]));
  }

  lemma StepKeepsReadingsAccounted(c: Config, s: State, step: Step)
    requires Safe(s) && ReadingsAccounted(s) && Enabled(s, step) && DropsNoCharge(s, step)
    ensures ReadingsAccounted(Apply(c, s, step)) && FreshAt(c, s, step)
  {
    hide Safe, ReadingAccounted, DropsNoCharge, Refuse, BeginRequest, CommitRequest, BudgetPasses, StillSummed;
    var t := Apply(c, s, step);
    if t.process.Up? {
      forall id | id in t.process.requests
        ensures ReadingAccounted(t.process.notes, t.settledKeys, t.deposit, t.process.requests[id])
      {
        RequestKeepsReadingAccounted(c, s, step, id);
      }
    }
    AccountedIsFresh(c, s, step);
  }

  lemma RequestKeepsReadingAccounted(c: Config, s: State, step: Step, id: RequestId)
    requires Safe(s) && ReadingsAccounted(s) && Enabled(s, step) && DropsNoCharge(s, step)
    requires Runs(Apply(c, s, step), id)
    ensures var t := Apply(c, s, step);
      ReadingAccounted(t.process.notes, t.settledKeys, t.deposit, t.process.requests[id])
  {
    hide DropsNoCharge, Refuse, BeginRequest, CommitRequest, BudgetPasses, StillSummed, SameCharges, Safe;
    var t := Apply(c, s, step);
    if t.process.requests[id].stage.DepositRead? && step != NodeAnswers(id) {
      SameReadings(c, s, step, id);
      var r := s.process.requests[id];
      if step.Settle? {
        StartedBefore(s, id);
        SettleKeepsReading(c, s, step.index, step.charge, r);
      } else {
        StepChargesSame(c, s, step, id);
        OnlyChecksVouch(c, s, step);
        SameChargesKeepReading(s, t, r);
      }
    }
  }

  lemma StartedBefore(s: State, id: RequestId)
    requires Safe(s) && Runs(s, id)
    ensures s.process.requests[id].started <= s.now
  {
  }

  lemma AccountedIsFresh(c: Config, s: State, step: Step)
    requires ReadingsAccounted(s) && Enabled(s, step)
    ensures FreshAt(c, s, step)
  {
    if PassesCheck(c, s, step) {
      var r := s.process.requests[step.id];
      assert ReadingAccounted(s.process.notes, s.settledKeys, s.deposit, r);
      forall k | k in StillSummed(s.process.notes, s.settledKeys, r.started)
        ensures s.process.notes[k].maxGasCost.Some?
      {
        assert k in Prune(s.process.notes, r.started);
      }
    }
  }

  /** Whatever is charged between a reading and its sum is harmless unless the charged entry is pruned in between. */
  lemma {:induction false} ChargesAreFreshUnlessDropped(c: Config, s: State, steps: seq<Step>)
    requires Safe(s) && ReadingsAccounted(s) && ValidRun(c, s, steps) && NoChargeDropped(c, s, steps)
    ensures FreshRun(c, s, steps)
    decreases |steps|
  {
    hide Safe, ReadingsAccounted, Apply, Enabled, FreshAt, DropsNoCharge;
    if steps == [] {
    } else {
      StepIsSafe(c, s, steps[0]);
      StepKeepsReadingsAccounted(c, s, steps[0]);
      ChargesAreFreshUnlessDropped(c, Apply(c, s, steps[0]), steps[1..]);
    }
  }
}
