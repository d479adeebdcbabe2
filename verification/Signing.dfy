/**
 The signing protocol: requests interleaved at every await, a clock, prunes, failing writes,
 crashes, restarts, and the chain charging the deposit.

 One step is what happens between two awaits of one request, or one thing the outside world
 does. A run is any list of enabled steps.
 */
module Signing {
  import opened Common
  import opened SponsorshipStore

  type RequestId = nat

  /** Signature lifetime, deposit reserve and per-operation cost limit. */
  datatype Config = Config(ttl: nat, minDeposit: nat, costLimit: Option<nat>)

  /** Which await a request is suspended at. */
  datatype Stage =
    | Resolving                     // the sender implementation
    | ReadingDeposit                // the deposit was asked for
    | DepositRead(deposit: nat)     // the node has answered; the check has not run yet
    | Registration
    | Simulation
    | BundlerSimulation
    | MakingSignature

  predicate BudgetChecked(stage: Stage) {
    stage.Registration? || stage.Simulation? || stage.BundlerSimulation? || stage.MakingSignature?
  }

  /** A request after it reserved its note. */
  datatype Request = Request(key: Key, token: Token, started: nat, validUntil: nat, cost: nat, stage: Stage)

  datatype Process =
    | Down
    | Up(notes: Notes, seqNo: nat, requests: map<RequestId, Request>)

  /** A signature that left the relayer, and whether the chain has charged for its operation. */
  datatype Issued = Issued(key: Key, validUntil: nat, cost: Option<nat>, settled: bool)

  datatype State = State(
    now: nat,
    deposit: nat,
    file: StoredNotes,
    process: Process,
    issued: seq<Issued>,
    // History only: whether some request has passed the budget check, and the nullifiers whose
    // current entry belongs to a settled signature.
    vouched: bool,
    settledKeys: set<Key>)

  datatype Step =
    | Tick(seconds: nat)
    | TopUp(amount: nat)
    | Settle(index: nat, charge: nat)
    | Begin(id: RequestId, key: Key, sender: Address, nonce: nat, cost: nat, stamp: nat)
    | Resolved(id: RequestId)
    | NodeAnswers(id: RequestId)
    | CheckBudget(id: RequestId)
    | Passed(id: RequestId)
    | Failed(id: RequestId)
    | Commit(id: RequestId, writes: bool)
    | CrashInCommit(id: RequestId)
    | StatusPrune
    | Crash
    | Restart(writes: bool)

  // ------------------------------------------------------------ the steps

  predicate Runs(s: State, id: RequestId) {
    s.process.Up? && id in s.process.requests
  }

  predicate LiveAt(i: Issued, now: nat) {
    i.validUntil >= now
  }

  /** Whether a step can happen in a state. */
  predicate Enabled(s: State, step: Step) {
    match step
    case Tick(_) => true
    case TopUp(_) => true
    // The chain includes an operation at most once, while its signature is valid, and charges at
    // most its gas limits at its own price.
    case Settle(i, charge) =>
      && i < |s.issued| && !s.issued[i].settled && LiveAt(s.issued[i], s.now)
      && charge <= s.deposit
      && (s.issued[i].cost.Some? ==> charge <= s.issued[i].cost.value)
    case Begin(id, _, _, _, _, _) => s.process.Up? && id !in s.process.requests
    case Resolved(id) => Runs(s, id) && s.process.requests[id].stage.Resolving?
    case NodeAnswers(id) => Runs(s, id) && s.process.requests[id].stage.ReadingDeposit?
    case CheckBudget(id) => Runs(s, id) && s.process.requests[id].stage.DepositRead?
    case Passed(id) => Runs(s, id) && BudgetChecked(s.process.requests[id].stage) && !s.process.requests[id].stage.MakingSignature?
    case Failed(id) => Runs(s, id)
    case Commit(id, _) => Runs(s, id) && s.process.requests[id].stage.MakingSignature?
    case CrashInCommit(id) =>
      Runs(s, id) && s.process.requests[id].stage.MakingSignature?
      && Holds(s.process.notes, s.process.requests[id].key, s.process.requests[id].token)
    case StatusPrune => s.process.Up?
    case Crash => s.process.Up?
    case Restart(_) => s.process.Down?
  }

  function AfterPassing(stage: Stage): Stage {
    match stage
    case Registration => Simulation
    case Simulation => BundlerSimulation
    case _ => MakingSignature
  }

  function SetStage(s: State, id: RequestId, stage: Stage): State
    requires Runs(s, id)
  {
    s.(process := s.process.(requests := s.process.requests[id := s.process.requests[id].(stage := stage)]))
  }

  /** The request is refused: its reservation is released. */
  function Refuse(s: State, id: RequestId): State
    requires Runs(s, id)
  {
    var r := s.process.requests[id];
    s.(process := s.process.(notes := Release(s.process.notes, r.key, r.token), requests := s.process.requests - {id}))
  }

  /** The deposit has to cover every entry that was unexpired when the request began, itself included. */
  ghost predicate BudgetPasses(c: Config, notes: Notes, r: Request, deposit: nat) {
    && AllCostsKnown(Prune(notes, r.started))
    && deposit >= Sum(Costs(Prune(notes, r.started))) + c.minDeposit
  }

  function BeginRequest(c: Config, s: State, step: Step): State
    requires step.Begin? && Enabled(s, step)
  {
    var notes := Prune(s.process.notes, s.now);
    if step.key in notes then s.(process := s.process.(notes := notes)) else
      var token := Token(step.stamp, s.process.seqNo + 1);
      var validUntil := s.now + c.ttl;
      s.(process := Up(
           notes[step.key := Note(validUntil, step.sender, step.nonce, Pending, token, Some(step.cost))],
           s.process.seqNo + 1,
           s.process.requests[step.id := Request(step.key, token, s.now, validUntil, step.cost, Resolving)]),
         settledKeys := s.settledKeys - {step.key})
  }

  function CommitRequest(s: State, id: RequestId, writes: bool): State
    requires Enabled(s, Commit(id, writes))
  {
    var r := s.process.requests[id];
    if Holds(s.process.notes, r.key, r.token) && writes then
      var notes := Sign(s.process.notes, r.key);
      s.(process := s.process.(notes := notes, requests := s.process.requests - {id}),
         file := SignedEntries(notes),
         issued := s.issued + [Issued(r.key, r.validUntil, Some(r.cost), false)])
    else Refuse(s, id)
  }

  ghost function Apply(c: Config, s: State, step: Step): State
    requires Enabled(s, step)
  {
    match step
    case Tick(seconds) => s.(now := s.now + seconds)
    case TopUp(amount) => s.(deposit := s.deposit + amount)
    case Settle(i, charge) =>
      s.(deposit := s.deposit - charge,
         issued := s.issued[i := s.issued[i].(settled := true)],
         settledKeys := s.settledKeys + {s.issued[i].key})
    case Begin(_, _, _, _, _, _) => BeginRequest(c, s, step)
    case Resolved(id) =>
      if c.costLimit.Some? && s.process.requests[id].cost > c.costLimit.value then Refuse(s, id)
      else SetStage(s, id, ReadingDeposit)
    case NodeAnswers(id) => SetStage(s, id, DepositRead(s.deposit))
    case CheckBudget(id) =>
      var r := s.process.requests[id];
      if BudgetPasses(c, s.process.notes, r, r.stage.deposit) then SetStage(s, id, Registration).(vouched := true)
      else Refuse(s, id)
    case Passed(id) => SetStage(s, id, AfterPassing(s.process.requests[id].stage))
    case Failed(id) => Refuse(s, id)
    case Commit(id, writes) => CommitRequest(s, id, writes)
    // The file was replaced, but the process died before the signature was returned.
    case CrashInCommit(id) =>
      s.(process := Down, file := SignedEntries(Sign(s.process.notes, s.process.requests[id].key)))
    case StatusPrune => s.(process := s.process.(notes := Prune(s.process.notes, s.now)))
    case Crash => s.(process := Down)
    case Restart(writes) =>
      if Loadable(s.file, s.now) && writes then
        s.(process := Up(Load(s.file, s.now), 0, map[]), file := SignedEntries(Load(s.file, s.now)))
      else s
  }

  // ------------------------------------------------------------ runs

  ghost predicate ValidRun(c: Config, s: State, steps: seq<Step>)
    decreases |steps|
  {
    steps == [] || (Enabled(s, steps[0]) && ValidRun(c, Apply(c, s, steps[0]), steps[1..]))
  }

  ghost function After(c: Config, s: State, steps: seq<Step>): State
    requires ValidRun(c, s, steps)
    decreases |steps|
  {
    if steps == [] then s else After(c, Apply(c, s, steps[0]), steps[1..])
  }

  /** A run with one more step. */
  lemma {:induction false} Extend(c: Config, s: State, steps: seq<Step>, step: Step)
    requires ValidRun(c, s, steps) && Enabled(After(c, s, steps), step)
    ensures ValidRun(c, s, steps + [step])
    ensures After(c, s, steps + [step]) == Apply(c, After(c, s, steps), step)
    decreases |steps|
  {
    hide Apply, Enabled;
    if steps == [] {
      assert [step][1..] == [];
    } else {
      assert (steps + [step])[0] == steps[0] && (steps + [step])[1..] == steps[1..] + [step];
      Extend(c, Apply(c, s, steps[0]), steps[1..], step);
    }
  }

  /** Signature `i` is recorded in the file with its expiry and cost. */
  ghost predicate InFile(file: StoredNotes, i: Issued) {
    && i.key in file && file[i.key].Stored?
    && file[i.key].validUntil == i.validUntil && file[i.key].maxGasCost == i.cost
  }

  ghost predicate OneLivePerNullifier(s: State) {
    forall i, j | 0 <= i < j < |s.issued| && LiveAt(s.issued[i], s.now) && LiveAt(s.issued[j], s.now) ::
      s.issued[i].key != s.issued[j].key
  }

  ghost predicate LiveAreInFile(s: State) {
    forall i | 0 <= i < |s.issued| && LiveAt(s.issued[i], s.now) :: InFile(s.file, s.issued[i])
  }

  /**
   A start: the process is down, and whatever earlier releases left in the file records every
   signature of theirs that is still live, one per nullifier.
   */
  ghost predicate Init(s: State) {
    && s.process.Down?
    && !s.vouched
    && OneLivePerNullifier(s)
    && LiveAreInFile(s)
    && SettledMatches(s)
  }

  /** The settled mark of a nullifier is that of its live signature. */
  ghost predicate SettledMatches(s: State) {
    forall i | 0 <= i < |s.issued| && LiveAt(s.issued[i], s.now) ::
      s.issued[i].key in s.settledKeys <==> s.issued[i].settled
  }

  // ------------------------------------------------------------ one live signature per note

  /** Memory and file agree on every live signed entry. */
  ghost predicate MemoryMatchesFile(s: State) {
    s.process.Up? ==>
      && (forall k | k in s.process.notes && s.process.notes[k].status == Signed && Live(s.process.notes[k], s.now) ::
            k in s.file && s.file[k] == ToStored(s.process.notes[k]))
      && (forall k | k in s.file && Restorable(s.file[k], s.now) ::
            k in s.process.notes && s.process.notes[k].status == Signed && s.file[k] == ToStored(s.process.notes[k]))
  }

  /** What a request reserved is still pending as long as its token holds the note. */
  ghost predicate ReservationIntact(notes: Notes, settledKeys: set<Key>, r: Request) {
    Holds(notes, r.key, r.token) ==>
      && r.key !in settledKeys
      && notes[r.key].status == Pending
      && notes[r.key].validUntil == r.validUntil
      && notes[r.key].maxGasCost == Some(r.cost)
  }

  ghost predicate RequestsValid(s: State) {
    s.process.Up? ==>
      && (forall id | id in s.process.requests ::
            && s.process.requests[id].token.Token?
            && s.process.requests[id].token.seqNo <= s.process.seqNo
            && s.process.requests[id].started <= s.now
            && ReservationIntact(s.process.notes, s.settledKeys, s.process.requests[id]))
      && (forall i, j | i in s.process.requests && j in s.process.requests && i != j ::
            s.process.requests[i].token.seqNo != s.process.requests[j].token.seqNo)
  }

  ghost predicate Safe(s: State) {
    && OneLivePerNullifier(s)
    && LiveAreInFile(s)
    && SettledMatches(s)
    && MemoryMatchesFile(s)
    && RequestsValid(s)
  }

  lemma PruneIsSafe(s: State)
    requires Safe(s) && s.process.Up?
    ensures Safe(s.(process := s.process.(notes := Prune(s.process.notes, s.now))))
  {
  }

  /** A reservation under a token of its own, for a note nobody holds. */
  lemma ReserveIsSafe(c: Config, s: State, step: Step)
    requires Safe(s) && step.Begin? && Enabled(s, step)
    requires s.process.notes == Prune(s.process.notes, s.now)
    ensures Safe(BeginRequest(c, s, step))
  {
  }

  lemma BeginIsSafe(c: Config, s: State, step: Step)
    requires Safe(s) && step.Begin? && Enabled(s, step)
    ensures Safe(Apply(c, s, step))
  {
    hide Safe;
    PruneIsSafe(s);
    var pruned := s.(process := s.process.(notes := Prune(s.process.notes, s.now)));
    assert Prune(pruned.process.notes, s.now) == pruned.process.notes;
    ReserveIsSafe(c, pruned, step);
    assert BeginRequest(c, pruned, step) == BeginRequest(c, s, step);
  }

  lemma StageIsSafe(s: State, id: RequestId, stage: Stage)
    requires Safe(s) && Runs(s, id)
    ensures Safe(SetStage(s, id, stage))
  {
  }

  lemma WorldIsSafe(c: Config, s: State, step: Step)
    requires Safe(s) && Enabled(s, step)
    requires step.Tick? || step.TopUp? || step.Crash? || step.CrashInCommit?
    ensures Safe(Apply(c, s, step))
  {
  }

  lemma RefuseIsSafe(s: State, id: RequestId)
    requires Safe(s) && Runs(s, id)
    ensures Safe(Refuse(s, id))
  {
  }

  /** A reservation that is still held becomes a signature, in memory, in the file and outside. */
  lemma SigningIsSafe(s: State, id: RequestId)
    requires Safe(s) && Enabled(s, Commit(id, true))
    requires Holds(s.process.notes, s.process.requests[id].key, s.process.requests[id].token)
    ensures Safe(CommitRequest(s, id, true))
  {
    hide Refuse;
  }

  lemma CommitIsSafe(c: Config, s: State, id: RequestId, writes: bool)
    requires Safe(s) && Enabled(s, Commit(id, writes))
    ensures Safe(Apply(c, s, Commit(id, writes)))
  {
    hide Safe, Refuse;
    if Holds(s.process.notes, s.process.requests[id].key, s.process.requests[id].token) && writes {
      SigningIsSafe(s, id);
    } else {
      RefuseIsSafe(s, id);
    }
  }

  lemma RestartIsSafe(c: Config, s: State, writes: bool)
    requires Safe(s) && Enabled(s, Restart(writes))
    ensures Safe(Apply(c, s, Restart(writes)))
  {
  }

  lemma SettleIsSafe(c: Config, s: State, i: nat, charge: nat)
    requires Safe(s) && Enabled(s, Settle(i, charge))
    ensures Safe(Apply(c, s, Settle(i, charge)))
  {
    assert InFile(s.file, s.issued[i]);
  }

  lemma StepIsSafe(c: Config, s: State, step: Step)
    requires Safe(s) && Enabled(s, step)
    ensures Safe(Apply(c, s, step))
  {
    hide Safe, Refuse, BeginRequest, CommitRequest, BudgetPasses;
    match step
    case Begin(_, _, _, _, _, _) => BeginIsSafe(c, s, step);
    case Commit(id, writes) => CommitIsSafe(c, s, id, writes);
    case Restart(writes) => RestartIsSafe(c, s, writes);
    case Settle(i, charge) => SettleIsSafe(c, s, i, charge);
    case StatusPrune => PruneIsSafe(s);
    case NodeAnswers(id) => StageIsSafe(s, id, DepositRead(s.deposit));
    case Passed(id) => StageIsSafe(s, id, AfterPassing(s.process.requests[id].stage));
    case Failed(id) => RefuseIsSafe(s, id);
    case Resolved(id) =>
      RefuseIsSafe(s, id);
      StageIsSafe(s, id, ReadingDeposit);
    case CheckBudget(id) =>
      RefuseIsSafe(s, id);
      StageIsSafe(s, id, Registration);
      VouchingIsSafe(SetStage(s, id, Registration));
    case _ => WorldIsSafe(c, s, step);
  }

  lemma VouchingIsSafe(s: State)
    requires Safe(s)
    ensures Safe(s.(vouched := true))
  {
  }

  lemma {:induction false} RunIsSafe(c: Config, s: State, steps: seq<Step>)
    requires Safe(s) && ValidRun(c, s, steps)
    ensures Safe(After(c, s, steps))
    decreases |steps|
  {
    if steps == [] {
    } else {
      StepIsSafe(c, s, steps[0]);
      RunIsSafe(c, Apply(c, s, steps[0]), steps[1..]);
    }
  }

  /**
   In every interleaving, at most one signature per nullifier is unexpired, and every unexpired
   one is in the file and, while the process is up, in memory as signed.
   */
  lemma AtMostOneLiveSignature(c: Config, s: State, steps: seq<Step>)
    requires Init(s) && ValidRun(c, s, steps)
    ensures var end := After(c, s, steps);
      && OneLivePerNullifier(end)
      && LiveAreInFile(end)
      && forall i | 0 <= i < |end.issued| && LiveAt(end.issued[i], end.now) && end.process.Up? ::
           end.issued[i].key in end.process.notes && end.process.notes[end.issued[i].key].status == Signed
  {
    hide *;
    assert Safe(s) by {
      SafeAtStart(s);
    }
    RunIsSafe(c, s, steps);
    SafeMeansRecorded(After(c, s, steps));
  }

  lemma SafeAtStart(s: State)
    requires Init(s)
    ensures Safe(s)
  {
  }

  lemma SafeMeansRecorded(s: State)
    requires Safe(s)
    ensures OneLivePerNullifier(s) && LiveAreInFile(s)
    ensures forall i | 0 <= i < |s.issued| && LiveAt(s.issued[i], s.now) && s.process.Up? ::
      && s.issued[i].key in s.process.notes
      && s.process.notes[s.issued[i].key].status == Signed
      && s.process.notes[s.issued[i].key].validUntil == s.issued[i].validUntil
      && s.process.notes[s.issued[i].key].maxGasCost == s.issued[i].cost
  {
    forall i | 0 <= i < |s.issued| && LiveAt(s.issued[i], s.now)
      ensures InFile(s.file, s.issued[i])
    {
    }
  }
}
