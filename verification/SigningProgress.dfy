/**
 What a signing request goes through and what it leaves behind: which signatures can be issued at
 all, what a refusal and a failed start leave, and that a request the deposit covers is signed.
 */
module SigningProgress {
  import opened Common
  import opened SponsorshipStore
  import opened Signing

  // ------------------------------------------------------------ which interleavings there are

  /** Nothing is scheduled: the world and every request can move whenever they are able to. */
  lemma EveryInterleaving(s: State, id: RequestId, n: nat, writes: bool)
    ensures Enabled(s, Tick(n)) && Enabled(s, TopUp(n))
    ensures s.process.Up? ==> Enabled(s, Crash) && Enabled(s, StatusPrune)
    ensures s.process.Down? ==> Enabled(s, Restart(writes))
    ensures s.process.Up? && id !in s.process.requests ==>
      forall key, sender, nonce, cost, stamp :: Enabled(s, Begin(id, key, sender, nonce, cost, stamp))
    ensures Runs(s, id) ==>
      && Enabled(s, Failed(id))
      && match s.process.requests[id].stage
         case Resolving => Enabled(s, Resolved(id))
         case ReadingDeposit => Enabled(s, NodeAnswers(id))
         case DepositRead(_) => Enabled(s, CheckBudget(id))
         case Registration => Enabled(s, Passed(id))
         case Simulation => Enabled(s, Passed(id))
         case BundlerSimulation => Enabled(s, Passed(id))
         case MakingSignature =>
           && Enabled(s, Commit(id, writes))
           && (Holds(s.process.notes, s.process.requests[id].key, s.process.requests[id].token) ==> Enabled(s, CrashInCommit(id)))
  {
  }

  /** What the world's own steps change: time, the deposit, or the process, and nothing else. */
  lemma WorldSteps(c: Config, s: State, n: nat)
    ensures Apply(c, s, Tick(n)) == s.(now := s.now + n)
    ensures Apply(c, s, TopUp(n)) == s.(deposit := s.deposit + n)
    ensures s.process.Up? ==> Apply(c, s, Crash) == s.(process := Down)
  {
  }

  // ------------------------------------------------------------ reserving and refusing

  /**
   A request begins by dropping what has expired. It is turned away exactly when its note is held by
   an entry that has not; otherwise it holds the note under a token of its own, for its lifetime.
   */
  lemma BeginReserves(c: Config, s: State, id: RequestId, key: Key, sender: Address, nonce: nat, cost: nat, stamp: nat)
    requires s.process.Up? && id !in s.process.requests
    ensures var t := Apply(c, s, Begin(id, key, sender, nonce, cost, stamp));
      && t.process.Up? && t.issued == s.issued && t.file == s.file && t.deposit == s.deposit
      && (forall k | k != key :: k in t.process.notes <==> k in s.process.notes && s.process.notes[k].validUntil >= s.now)
      && (forall k | k != key && k in t.process.notes :: t.process.notes[k] == s.process.notes[k])
      && if key in s.process.notes && s.process.notes[key].validUntil >= s.now
         then
           t.process.requests == s.process.requests && key in t.process.notes && t.process.notes[key] == s.process.notes[key]
         else
           && key in t.process.notes && id in t.process.requests
           && t.process.notes[key]
              == Note(s.now + c.ttl, sender, nonce, Pending, Token(stamp, s.process.seqNo + 1), Some(cost))
           && t.process.requests[id]
              == Request(key, Token(stamp, s.process.seqNo + 1), s.now, s.now + c.ttl, cost, Resolving)
  {
  }

  /** A refused request is gone, and so is what it held; everything else is untouched. */
  lemma RefusalFrees(s: State, id: RequestId)
    requires Safe(s) && Runs(s, id)
    ensures var t, r := Refuse(s, id), s.process.requests[id];
      && t.process.Up? && id !in t.process.requests && t.issued == s.issued && t.file == s.file
      && !Holds(t.process.notes, r.key, r.token)
      && (r.key in s.process.notes && s.process.notes[r.key].token == r.token ==> r.key !in t.process.notes)
      && (forall k :: k in t.process.notes <==> k in s.process.notes && !(k == r.key && s.process.notes[k].token == r.token))
      && (forall k | k in t.process.notes :: t.process.notes[k] == s.process.notes[k])
  {
    assert ReservationIntact(s.process.notes, s.settledKeys, s.process.requests[id]);
  }

  /** After the refusal of a request that held its note, the same note can be reserved at once. */
  lemma RefusedNoteCanBeReserved(c: Config, s: State, id: RequestId, next: RequestId, sender: Address, nonce: nat, cost: nat, stamp: nat)
    requires Safe(s) && Runs(s, id) && next !in Refuse(s, id).process.requests
    requires Holds(s.process.notes, s.process.requests[id].key, s.process.requests[id].token)
    ensures next in Apply(c, Refuse(s, id), Begin(next, s.process.requests[id].key, sender, nonce, cost, stamp)).process.requests
  {
    RefusalFrees(s, id);
    BeginReserves(c, Refuse(s, id), next, s.process.requests[id].key, sender, nonce, cost, stamp);
  }

  /**
   The end of a request. It is issued exactly when its reservation is still held and the file could be
   written, and then file, memory and signature agree; otherwise nothing is issued or written, and the
   reservation is gone.
   */
  lemma CommitOutcome(c: Config, s: State, id: RequestId, writes: bool)
    requires Safe(s) && Enabled(s, Commit(id, writes))
    ensures var t, r := Apply(c, s, Commit(id, writes)), s.process.requests[id];
      && t.process.Up? && t.process.requests == s.process.requests - {id} && t.deposit == s.deposit && t.now == s.now
      && if writes && r.key in s.process.notes && s.process.notes[r.key].token == r.token
         then
           var note := s.process.notes[r.key];
           && t.issued == s.issued + [Issued(r.key, r.validUntil, Some(r.cost), false)]
           && t.process.notes == s.process.notes[r.key := note.(status := Signed)]
           && r.key in t.file
           && t.file[r.key] == Stored(r.validUntil, note.sender, note.nonce, Some(r.token), Some(r.cost))
         else
           && t.issued == s.issued && t.file == s.file
           && !(r.key in t.process.notes && t.process.notes[r.key].token == r.token)
  {
    RefusalFrees(s, id);
    assert ReservationIntact(s.process.notes, s.settledKeys, s.process.requests[id]);
  }

  /** `status` drops exactly what has expired. */
  lemma StatusPrunes(c: Config, s: State)
    requires s.process.Up?
    ensures var t := Apply(c, s, StatusPrune);
      && t == s.(process := t.process) && t.process.Up? && t.process.requests == s.process.requests
      && (forall k :: k in t.process.notes <==> k in s.process.notes && s.process.notes[k].validUntil >= s.now)
      && (forall k | k in t.process.notes :: t.process.notes[k] == s.process.notes[k])
  {
  }

  /** A crash after the file was written, before the signature was returned: recorded, not issued. */
  lemma CrashAfterWriting(c: Config, s: State, id: RequestId)
    requires Safe(s) && Enabled(s, CrashInCommit(id))
    ensures var t, r := Apply(c, s, CrashInCommit(id)), s.process.requests[id];
      && t.process.Down? && t.issued == s.issued
      && r.key in t.file && t.file[r.key].Stored? && t.file[r.key].validUntil == r.validUntil
      && t.file[r.key].maxGasCost == Some(r.cost)
  {
    assert ReservationIntact(s.process.notes, s.settledKeys, s.process.requests[id]);
  }

  /** So after a restart the note stays taken for the lifetime of the signature that was never returned. */
  lemma CrashedNoteStaysTaken(c: Config, s: State, id: RequestId, next: RequestId, sender: Address, nonce: nat, cost: nat, stamp: nat)
    requires Safe(s) && Enabled(s, CrashInCommit(id)) && s.process.requests[id].validUntil >= s.now
    ensures var t := Apply(c, Apply(c, s, CrashInCommit(id)), Restart(true));
      t.process.Up? ==>
        var u := Apply(c, t, Begin(next, s.process.requests[id].key, sender, nonce, cost, stamp));
        u.process.Up? && u.process.requests == map[]
  {
    CrashAfterWriting(c, s, id);
    hide SignedEntries, Sign;
    var t := Apply(c, Apply(c, s, CrashInCommit(id)), Restart(true));
    if t.process.Up? {
      BeginReserves(c, t, next, s.process.requests[id].key, sender, nonce, cost, stamp);
    }
  }

  // ------------------------------------------------------------ the limit on one operation

  /** From signature `first` on, and for every request past its first await, the cost is known and within the limit. */
  ghost predicate WithinLimit(c: Config, s: State, first: nat) {
    && first <= |s.issued|
    && (c.costLimit.Some? ==>
          && (forall i | first <= i < |s.issued| :: s.issued[i].cost.Some? && s.issued[i].cost.value <= c.costLimit.value)
          && (s.process.Up? ==> forall id | id in s.process.requests && !s.process.requests[id].stage.Resolving? ::
                s.process.requests[id].cost <= c.costLimit.value))
    && forall i | first <= i < |s.issued| :: s.issued[i].cost.Some?
  }

  lemma StepKeepsWithinLimit(c: Config, s: State, step: Step, first: nat)
    requires WithinLimit(c, s, first) && Enabled(s, step)
    ensures WithinLimit(c, Apply(c, s, step), first)
  {
    hide BudgetPasses, Prune, Release, Load, Sign, SignedEntries, Loadable;
  }

  lemma {:induction false} RunKeepsWithinLimit(c: Config, s: State, steps: seq<Step>, first: nat)
    requires WithinLimit(c, s, first) && ValidRun(c, s, steps)
    ensures WithinLimit(c, After(c, s, steps), first)
    decreases |steps|
  {
    hide WithinLimit, Apply, Enabled;
    if steps == [] {
    } else {
      StepKeepsWithinLimit(c, s, steps[0], first);
      RunKeepsWithinLimit(c, Apply(c, s, steps[0]), steps[1..], first);
    }
  }

  /** In every interleaving, every signature issued has a recorded cost, and one within the limit if there is one. */
  lemma IssuedWithinLimit(c: Config, s: State, steps: seq<Step>)
    requires Init(s) && ValidRun(c, s, steps)
    ensures var end := After(c, s, steps);
      && |s.issued| <= |end.issued|
      && forall i | |s.issued| <= i < |end.issued| ::
           end.issued[i].cost.Some? && (c.costLimit.Some? ==> end.issued[i].cost.value <= c.costLimit.value)
  {
    RunKeepsWithinLimit(c, s, steps, |s.issued|);
  }

  // ------------------------------------------------------------ the awaits of one request

  /** The steps that take a request from one await to the next, in the order of `sign`. */
  function Script(id: RequestId): seq<Step> {
    [Resolved(id), NodeAnswers(id), CheckBudget(id), Passed(id), Passed(id), Passed(id)]
  }

  /** How many of them lie behind a request. */
  function Progress(stage: Stage): (n: nat)
    ensures n <= 6
  {
    match stage
    case Resolving => 0
    case ReadingDeposit => 1
    case DepositRead(_) => 2
    case Registration => 3
    case Simulation => 4
    case BundlerSimulation => 5
    case MakingSignature => 6
  }

  /** The steps that request `id` has taken since it last began. */
  function Taken(before: seq<Step>, steps: seq<Step>, id: RequestId): seq<Step>
    decreases |steps|
  {
    if steps == [] then before
    else if steps[0].Begin? && steps[0].id == id then Taken([], steps[1..], id)
    else if steps[0] in Script(id) then Taken(before + [steps[0]], steps[1..], id)
    else Taken(before, steps[1..], id)
  }

  ghost predicate OnScript(s: State, id: RequestId, before: seq<Step>) {
    Runs(s, id) ==> before == Script(id)[..Progress(s.process.requests[id].stage)]
  }

  /** A request begins before the script, moves along it by its next step only, and otherwise stays. */
  lemma StagesFollowScript(c: Config, s: State, step: Step, id: RequestId)
    requires Enabled(s, step) && Runs(Apply(c, s, step), id)
    ensures var now := Progress(Apply(c, s, step).process.requests[id].stage);
      if step.Begin? && step.id == id then now == 0
      else if step in Script(id) then now > 0 && step == Script(id)[now - 1] && Runs(s, id) && Progress(s.process.requests[id].stage) == now - 1
      else Runs(s, id) && Progress(s.process.requests[id].stage) == now
  {
    hide BudgetPasses, Prune, Release, Load, Sign, SignedEntries, Loadable;
  }

  lemma StepFollowsScript(c: Config, s: State, step: Step, id: RequestId, before: seq<Step>)
    requires Enabled(s, step) && OnScript(s, id, before)
    ensures OnScript(Apply(c, s, step), id, Taken(before, [step], id))
  {
    hide Apply, Enabled, Progress;
    if Runs(Apply(c, s, step), id) {
      StagesFollowScript(c, s, step, id);
      var now := Progress(Apply(c, s, step).process.requests[id].stage);
      assert now > 0 ==> Script(id)[..now] == Script(id)[..now - 1] + [Script(id)[now - 1]];
    }
    assert Taken(before, [step], id) ==
      if step.Begin? && step.id == id then [] else if step in Script(id) then before + [step] else before;
  }

  lemma {:induction false} RunFollowsScript(c: Config, s: State, steps: seq<Step>, id: RequestId, before: seq<Step>)
    requires ValidRun(c, s, steps) && OnScript(s, id, before)
    ensures OnScript(After(c, s, steps), id, Taken(before, steps, id))
    decreases |steps|
  {
    hide OnScript, Apply, Enabled, Script;
    if steps == [] {
    } else {
      StepFollowsScript(c, s, steps[0], id, before);
      assert [steps[0]][1..] == [];
      RunFollowsScript(c, Apply(c, s, steps[0]), steps[1..], id, Taken(before, [steps[0]], id));
    }
  }

  /**
   In every interleaving, a request about to be signed has, since it began, been resolved, read
   the deposit, passed the budget check, and passed the three checks after it: each once, in this order.
   */
  lemma SignedAfterEveryCheck(c: Config, s: State, steps: seq<Step>, id: RequestId, writes: bool)
    requires Init(s) && ValidRun(c, s, steps) && Enabled(After(c, s, steps), Commit(id, writes))
    ensures Taken([], steps, id)
         == [Resolved(id), NodeAnswers(id), CheckBudget(id), Passed(id), Passed(id), Passed(id)]
  {
    hide Apply;
    RunFollowsScript(c, s, steps, id, []);
    assert Script(id)[..6] == Script(id);
  }

  // ------------------------------------------------------------ starting from a file

  /** A restart comes up exactly when no signed entry is damaged, save expired ones, and the file can be written. */
  lemma RestartComesUp(c: Config, s: State, writes: bool)
    requires s.process.Down?
    ensures var t := Apply(c, s, Restart(writes));
      && t.issued == s.issued && t.deposit == s.deposit && t.now == s.now
      && (t.process.Up? <==> writes && forall k | k in s.file ::
            !s.file[k].Malformed? && (s.file[k].Unreadable? ==> s.file[k].expires < s.now))
      && (t.process.Down? ==> t == s)
      && (t.process.Up? ==> t.process.requests == map[])
  {
  }

  /** A damaged entry that still stops the start. */
  ghost predicate Blocks(file: StoredNotes, key: Key, until: nat) {
    key in file && (file[key].Malformed? || (file[key].Unreadable? && file[key].expires >= until))
  }

  /**
   A start as `Init` describes it, except that live signatures may be behind entries that were
   damaged, as long as what can still be read of their expiry is not too early.
   */
  ghost predicate DamagedInit(s: State) {
    && s.process.Down?
    && !s.vouched
    && OneLivePerNullifier(s)
    && SettledMatches(s)
    && forall i | 0 <= i < |s.issued| && LiveAt(s.issued[i], s.now) ::
         InFile(s.file, s.issued[i]) || Blocks(s.file, s.issued[i].key, s.issued[i].validUntil)
  }

  /** While a live signature is behind a damaged entry the process does not come up. */
  lemma DamageKeepsDown(c: Config, s: State, step: Step)
    requires DamagedInit(s) && !Init(s) && Enabled(s, step)
    ensures DamagedInit(Apply(c, s, step))
    ensures var t := Apply(c, s, step);
      && |t.issued| == |s.issued| && t.file == s.file && t.now >= s.now
      && forall i | 0 <= i < |s.issued| :: t.issued[i].key == s.issued[i].key && t.issued[i].validUntil == s.issued[i].validUntil
           && t.issued[i].cost == s.issued[i].cost
  {
    hide SignedEntries, Load;
    var i :| 0 <= i < |s.issued| && LiveAt(s.issued[i], s.now) && !InFile(s.file, s.issued[i]);
    assert step.Restart? ==> Rejected(s.file[s.issued[i].key], s.now);
    assert forall j | 0 <= j < |s.issued| && LiveAt(s.issued[j], s.now) ::
      InFile(s.file, s.issued[j]) || Blocks(s.file, s.issued[j].key, s.issued[j].validUntil);
  }

  /** In every interleaving from such a start, too, at most one signature per nullifier is unexpired. */
  lemma {:induction false} OneLiveSignatureDespiteDamage(c: Config, s: State, steps: seq<Step>)
    requires DamagedInit(s) && ValidRun(c, s, steps)
    ensures OneLivePerNullifier(After(c, s, steps))
    decreases |steps|
  {
    hide Apply, Enabled, DamagedInit, Init;
    if steps == [] {
      assert OneLivePerNullifier(s) by {
        DamagedIsOnePer(s);
      }
    } else if Init(s) {
      AtMostOneLiveSignature(c, s, steps);
    } else {
      DamageKeepsDown(c, s, steps[0]);
      OneLiveSignatureDespiteDamage(c, Apply(c, s, steps[0]), steps[1..]);
    }
  }

  lemma {:induction false} TimePasses(c: Config, s: State, steps: seq<Step>)
    requires ValidRun(c, s, steps)
    ensures s.now <= After(c, s, steps).now
    decreases |steps|
  {
    if steps == [] {
    } else {
      StepTakesTime(c, s, steps[0]);
      hide Apply, Enabled;
      TimePasses(c, Apply(c, s, steps[0]), steps[1..]);
    }
  }

  lemma StepTakesTime(c: Config, s: State, step: Step)
    requires Enabled(s, step)
    ensures s.now <= Apply(c, s, step).now
  {
    hide BudgetPasses, Prune, Release, Load, Sign, SignedEntries, Loadable;
  }

  /** As long as a signature behind a damaged entry is live, the process stays down and nothing is issued. */
  lemma {:induction false} NothingSignedOverDamage(c: Config, s: State, steps: seq<Step>, i: nat)
    requires DamagedInit(s) && ValidRun(c, s, steps)
    requires i < |s.issued| && !InFile(s.file, s.issued[i]) && LiveAt(s.issued[i], After(c, s, steps).now)
    ensures After(c, s, steps).process.Down? && |After(c, s, steps).issued| == |s.issued|
    decreases |steps|
  {
    TimePasses(c, s, steps);
    hide Apply, Enabled;
    if steps == [] {
    } else {
      DamageKeepsDown(c, s, steps[0]);
      NothingSignedOverDamage(c, Apply(c, s, steps[0]), steps[1..], i);
    }
  }

  lemma DamagedIsOnePer(s: State)
    requires DamagedInit(s)
    ensures OneLivePerNullifier(s)
  {
  }

  // ------------------------------------------------------------ a covered request is signed

  /** A request, and where it is. */
  datatype Wish = Wish(id: RequestId, key: Key, sender: Address, nonce: nat, cost: nat, stamp: nat)

  /** The note is free, the cost within the limit, and the deposit covers it with everything live and the reserve. */
  ghost predicate Grantable(c: Config, s: State, w: Wish) {
    && s.process.Up? && w.id !in s.process.requests
    && (w.key in s.process.notes ==> s.process.notes[w.key].validUntil < s.now)
    && (c.costLimit.Some? ==> w.cost <= c.costLimit.value)
    && AllCostsKnown(Prune(s.process.notes, s.now))
    && s.deposit >= Sum(Costs(Prune(s.process.notes, s.now))) + w.cost + c.minDeposit
  }

  function TokenOf(s: State, w: Wish): Token
    requires s.process.Up?
  {
    Token(w.stamp, s.process.seqNo + 1)
  }

  function HeldNotes(c: Config, s: State, w: Wish): Notes
    requires s.process.Up?
  {
    Prune(s.process.notes, s.now)[w.key := Note(s.now + c.ttl, w.sender, w.nonce, Pending, TokenOf(s, w), Some(w.cost))]
  }

  /** The state while the request is at an await. */
  function At(c: Config, s: State, w: Wish, stage: Stage, vouched: bool): State
    requires s.process.Up?
  {
    s.(process := Up(HeldNotes(c, s, w), s.process.seqNo + 1,
                     s.process.requests[w.id := Request(w.key, TokenOf(s, w), s.now, s.now + c.ttl, w.cost, stage)]),
       settledKeys := s.settledKeys - {w.key},
       vouched := vouched)
  }

  lemma MoveOn(c: Config, s: State, w: Wish, stage: Stage, next: Stage, vouched: bool)
    requires s.process.Up?
    ensures SetStage(At(c, s, w, stage, vouched), w.id, next) == At(c, s, w, next, vouched)
  {
    assert SetStage(At(c, s, w, stage, vouched), w.id, next).process.requests == At(c, s, w, next, vouched).process.requests;
  }

  lemma WishBegins(c: Config, s: State, w: Wish)
    requires Grantable(c, s, w)
    ensures Apply(c, s, Begin(w.id, w.key, w.sender, w.nonce, w.cost, w.stamp)) == At(c, s, w, Resolving, s.vouched)
  {
    hide AllCostsKnown, Costs, Sum;
  }

  lemma WishPassesCheck(c: Config, s: State, w: Wish)
    requires Grantable(c, s, w)
    ensures Apply(c, At(c, s, w, DepositRead(s.deposit), s.vouched), CheckBudget(w.id)) == At(c, s, w, Registration, true)
  {
    var notes, pruned := HeldNotes(c, s, w), Prune(s.process.notes, s.now);
    assert Prune(notes, s.now) == notes;
    assert Costs(notes) == Costs(pruned)[w.key := w.cost];
    SumUpdate(Costs(pruned), w.key, w.cost);
    MoveOn(c, s, w, DepositRead(s.deposit), Registration, s.vouched);
  }

  lemma Then(c: Config, s: State, steps: seq<Step>, at: State, step: Step, next: State) returns (more: seq<Step>)
    requires ValidRun(c, s, steps) && After(c, s, steps) == at
    requires Enabled(at, step) && Apply(c, at, step) == next
    ensures ValidRun(c, s, more) && After(c, s, more) == next
  {
    hide Apply, Enabled;
    Extend(c, s, steps, step);
    more := steps + [step];
  }

  lemma RunToBudget(c: Config, s: State, w: Wish) returns (steps: seq<Step>)
    requires Grantable(c, s, w)
    ensures ValidRun(c, s, steps) && After(c, s, steps) == At(c, s, w, Registration, true)
  {
    assert ValidRun(c, s, []) && After(c, s, []) == s;
    WishBegins(c, s, w);
    WishPassesCheck(c, s, w);
    hide ValidRun, After, HeldNotes, BudgetPasses;
    MoveOn(c, s, w, Resolving, ReadingDeposit, s.vouched);
    MoveOn(c, s, w, ReadingDeposit, DepositRead(s.deposit), s.vouched);
    var at := At(c, s, w, Resolving, s.vouched);
    steps := Then(c, s, [], s, Begin(w.id, w.key, w.sender, w.nonce, w.cost, w.stamp), at);
    var next := At(c, s, w, ReadingDeposit, s.vouched);
    steps := Then(c, s, steps, at, Resolved(w.id), next);
    at := At(c, s, w, DepositRead(s.deposit), s.vouched);
    steps := Then(c, s, steps, next, NodeAnswers(w.id), at);
    steps := Then(c, s, steps, at, CheckBudget(w.id), At(c, s, w, Registration, true));
  }

  lemma WishCommits(c: Config, s: State, w: Wish)
    requires Grantable(c, s, w)
    ensures var last := At(c, s, w, MakingSignature, true);
      var end := Apply(c, last, Step.Commit(w.id, true));
      && end.issued == s.issued + [Issued(w.key, s.now + c.ttl, Some(w.cost), false)]
      && w.key in end.file
      && end.file[w.key] == Stored(s.now + c.ttl, w.sender, w.nonce, Some(Token(w.stamp, s.process.seqNo + 1)), Some(w.cost))
  {
    hide AllCostsKnown, Costs, Sum, Prune;
  }

  /** A grantable request can be signed: there is a run that issues exactly its signature. */
  lemma CoveredRequestIsSigned(c: Config, s: State, w: Wish) returns (steps: seq<Step>)
    requires Grantable(c, s, w)
    ensures ValidRun(c, s, steps)
    ensures var end := After(c, s, steps);
      && end.issued == s.issued + [Issued(w.key, s.now + c.ttl, Some(w.cost), false)]
      && w.key in end.file
      && end.file[w.key] == Stored(s.now + c.ttl, w.sender, w.nonce, Some(Token(w.stamp, s.process.seqNo + 1)), Some(w.cost))
  {
    steps := RunToBudget(c, s, w);
    WishCommits(c, s, w);
    hide ValidRun, After, HeldNotes, SignedEntries, Sign, Grantable;
    MoveOn(c, s, w, Registration, Simulation, true);
    MoveOn(c, s, w, Simulation, BundlerSimulation, true);
    MoveOn(c, s, w, BundlerSimulation, MakingSignature, true);
    steps := Then(c, s, steps, At(c, s, w, Registration, true), Passed(w.id), At(c, s, w, Simulation, true));
    steps := Then(c, s, steps, At(c, s, w, Simulation, true), Passed(w.id), At(c, s, w, BundlerSimulation, true));
    steps := Then(c, s, steps, At(c, s, w, BundlerSimulation, true), Passed(w.id), At(c, s, w, MakingSignature, true));
    var last := At(c, s, w, MakingSignature, true);
    steps := Then(c, s, steps, last, Step.Commit(w.id, true), Apply(c, last, Step.Commit(w.id, true)));
  }
}
