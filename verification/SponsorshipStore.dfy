/**
 Live sponsorships by nullifier, in memory and in a file.

 The pure functions say what each store operation does to the notes and to the file; the class
 is proved against them, and the signing protocol is built from them.
 */
module SponsorshipStore {
  import opened Common

  type Key = Word

  /** Identifies the request that holds an entry: a start time and a counter of this process. */
  datatype Token = Token(stamp: nat, seqNo: nat) | Restored

  datatype Status = Pending | Signed

  datatype Note = Note(
    validUntil: nat,
    sender: Address,
    nonce: nat,
    status: Status,
    token: Token,
    maxGasCost: Option<nat>)

  type Notes = map<Key, Note>

  /** An entry of the file as it is found there. */
  datatype StoredNote =
    | NotSigned                                 // a status other than signed
    | Malformed                                 // a signed entry with a bad key or a missing field
    | Unreadable(expires: nat)                  // a signed entry whose address or numbers do not parse
    | Stored(validUntil: nat, sender: Address, nonce: nat, token: Option<Token>, maxGasCost: Option<nat>)

  type StoredNotes = map<Key, StoredNote>

  predicate Live(n: Note, now: nat) {
    n.validUntil >= now
  }

  // ------------------------------------------------------------ what the operations do

  function Prune(notes: Notes, now: nat): Notes {
    map k | k in notes && Live(notes[k], now) :: notes[k]
  }

  predicate Holds(notes: Notes, k: Key, token: Token) {
    k in notes && notes[k].token == token
  }

  function Release(notes: Notes, k: Key, token: Token): Notes {
    if Holds(notes, k, token) && notes[k].status == Pending then notes - {k} else notes
  }

  /** The notes after `k` was marked signed. */
  function Sign(notes: Notes, k: Key): Notes
    requires k in notes
  {
    notes[k := notes[k].(status := Signed)]
  }

  function ToStored(n: Note): StoredNote {
    Stored(n.validUntil, n.sender, n.nonce, Some(n.token), n.maxGasCost)
  }

  /** What the file holds after a successful write: the signed notes. */
  function SignedEntries(notes: Notes): StoredNotes {
    map k | k in notes && notes[k].status == Signed :: ToStored(notes[k])
  }

  function FromStored(s: StoredNote): Note
    requires s.Stored?
  {
    Note(s.validUntil, s.sender, s.nonce, Signed, if s.token.Some? then s.token.value else Restored, s.maxGasCost)
  }

  /** A signed entry that stops the start-up. */
  predicate Rejected(s: StoredNote, now: nat) {
    s.Malformed? || (s.Unreadable? && s.expires >= now)
  }

  /** What a restart at `now` finds in the file, or nothing when the file cannot be trusted. */
  ghost predicate Loadable(file: StoredNotes, now: nat) {
    forall k | k in file :: !Rejected(file[k], now)
  }

  predicate Restorable(s: StoredNote, now: nat) {
    s.Stored? && s.validUntil >= now
  }

  function Load(file: StoredNotes, now: nat): Notes {
    map k | k in file && Restorable(file[k], now) :: FromStored(file[k])
  }

  /** Writing and reading back loses no live signed note and invents none. */
  lemma LoadOfSigned(notes: Notes, now: nat)
    ensures Loadable(SignedEntries(notes), now)
    ensures forall k :: k in Load(SignedEntries(notes), now) <==>
      k in notes && notes[k].status == Signed && Live(notes[k], now)
    ensures forall k | k in Load(SignedEntries(notes), now) :: Load(SignedEntries(notes), now)[k] == notes[k]
  {
  }

  // ------------------------------------------------------------ the deposit budget

  /** The recorded costs of the entries; an unrecorded one counts as zero here. */
  function Costs(notes: Notes): map<Key, nat> {
    map k | k in notes :: CostOf(notes[k])
  }

  function CostOf(n: Note): nat {
    if n.maxGasCost.Some? then n.maxGasCost.value else 0
  }

  ghost predicate AllCostsKnown(notes: Notes) {
    forall k | k in notes :: notes[k].maxGasCost.Some?
  }

  datatype Budget = Known(wei: nat) | Unknown(unknown: nat, until: nat)

  ghost function TotalCost(notes: seq<Note>): nat {
    if notes == [] then 0 else TotalCost(notes[..|notes| - 1]) + CostOf(notes[|notes| - 1])
  }

  ghost function UnknownCosts(notes: seq<Note>): nat {
    if notes == [] then 0
    else UnknownCosts(notes[..|notes| - 1]) + if notes[|notes| - 1].maxGasCost.None? then 1 else 0
  }

  /** What the live sponsorships can still cost; unknown as soon as one of them has no recorded cost. */
  method CommittedGasCost(notes: seq<Note>) returns (budget: Budget)
    ensures budget.Known? <==> forall n :: n in notes ==> n.maxGasCost.Some?
    ensures budget.Known? ==> budget.wei == TotalCost(notes)
    ensures budget.Unknown? ==> budget.unknown == UnknownCosts(notes)
    ensures budget.Unknown? ==> forall n :: n in notes && n.maxGasCost.None? ==> n.validUntil <= budget.until
    ensures budget.Unknown? && budget.until > 0 ==>
      exists n :: n in notes && n.maxGasCost.None? && n.validUntil == budget.until
  {
    var wei, unknown, until := 0, 0, 0;
    for i := 0 to |notes|
      invariant wei == TotalCost(notes[..i])
      invariant unknown == UnknownCosts(notes[..i])
      invariant unknown == 0 <==> forall n :: n in notes[..i] ==> n.maxGasCost.Some?
      invariant forall n :: n in notes[..i] && n.maxGasCost.None? ==> n.validUntil <= until
      invariant until > 0 ==> exists n :: n in notes[..i] && n.maxGasCost.None? && n.validUntil == until
    {
      assert notes[..i + 1] == notes[..i] + [notes[i]];
      assert notes[i] in notes[..i + 1];
      if notes[i].maxGasCost.Some? {
        wei := wei + notes[i].maxGasCost.value;
      } else {
        unknown := unknown + 1;
        until := if notes[i].validUntil > until then notes[i].validUntil else until;
      }
    }
    assert notes[..|notes|] == notes;
    budget := if unknown > 0 then Unknown(unknown, until) else Known(wei);
  }

  // ------------------------------------------------------------ the stores

  /** The path of the store; its content outlives every process that opens it. */
  class StoreFile {
    var entries: Option<StoredNotes>

    ghost function Content(): StoredNotes
      reads this
    {
      if entries.Some? then entries.value else map[]
    }
  }

  class FileSponsorshipStore {
    const file: StoreFile
    var notes: Notes
    var seqNo: nat
    /** Live entries restored without a recorded cost. */
    var legacyEntries: nat

    constructor Empty(file: StoreFile)
      ensures this.file == file && notes == map[] && seqNo == 0 && legacyEntries == 0
    {
      this.file := file;
      notes, seqNo, legacyEntries := map[], 0, 0;
    }

    /**
     Opens the store at `now`: loads the live signed entries, then rewrites the file. Fails, with
     the file as it was, exactly when a signed entry cannot be trusted or the file cannot be written.
     */
    static method Open(file: StoreFile, now: nat, writable: bool) returns (store: Option<FileSponsorshipStore>)
      modifies file
      ensures store.Some? <==> writable && forall k | k in old(file.Content()) ::
        !old(file.Content())[k].Malformed? && (old(file.Content())[k].Unreadable? ==> old(file.Content())[k].expires < now)
      ensures store.None? ==> unchanged(file)
      ensures store.Some? ==>
        && fresh(store.value) && store.value.file == file
        && store.value.notes == Load(old(file.Content()), now) && store.value.seqNo == 0
        && (forall k :: k in store.value.notes <==>
              k in old(file.Content()) && old(file.Content())[k].Stored? && old(file.Content())[k].validUntil >= now)
        && (forall k | k in store.value.notes ::
              var v := old(file.Content())[k];
              store.value.notes[k] == Note(v.validUntil, v.sender, v.nonce, Signed,
                if v.token == None then Restored else v.token.value, v.maxGasCost))
        && file.Content() == SignedEntries(store.value.notes)
        && (store.value.legacyEntries == 0 <==> AllCostsKnown(store.value.notes))
    {
      var s := new FileSponsorshipStore.Empty(file);
      if file.entries.Some? {
        var raw := file.entries.value;
        var rest := raw.Keys;
        while rest != {}
          invariant rest <= raw.Keys
          invariant fresh(s) && s.seqNo == 0 && s.file == file && unchanged(file)
          invariant forall k | k in raw && k !in rest :: !Rejected(raw[k], now)
          invariant forall k :: k in s.notes <==> k in raw && k !in rest && Restorable(raw[k], now)
          invariant forall k | k in s.notes :: s.notes[k] == FromStored(raw[k])
          invariant s.legacyEntries == 0 <==> AllCostsKnown(s.notes)
        {
          var k :| k in rest;
          var v := raw[k];
          if Rejected(v, now) {
            assert k in old(file.Content()) && old(file.Content())[k] == v;
            return None;
          }
          if Restorable(v, now) {
            if v.maxGasCost.None? {
              assert (s.notes[k := FromStored(v)])[k].maxGasCost.None?;
              s.legacyEntries := s.legacyEntries + 1;
            }
            s.notes := s.notes[k := FromStored(v)];
          }
          rest := rest - {k};
        }
        assert s.notes == Load(raw, now);
      }
      if !writable {
        return None;
      }
      file.entries := Some(SignedEntries(s.notes));
      return Some(s);
    }

    /** Claims a note as pending; refused while any entry for it is held. */
    method Reserve(k: Key, validUntil: nat, sender: Address, nonce: nat, maxGasCost: Option<nat>, stamp: nat)
      returns (token: Option<Token>)
      modifies `notes, `seqNo
      ensures token.Some? <==> k !in old(notes)
      ensures token.None? ==> unchanged(this)
      ensures token.Some? ==>
        && seqNo == old(seqNo) + 1
        && token.value == Token(stamp, seqNo)
        && notes == old(notes)[k := Note(validUntil, sender, nonce, Pending, token.value, maxGasCost)]
    {
      if k in notes {
        return None;
      }
      seqNo := seqNo + 1;
      var t := Token(stamp, seqNo);
      notes := notes[k := Note(validUntil, sender, nonce, Pending, t, maxGasCost)];
      return Some(t);
    }

    /**
     Records the reservation as signed, in the file first. Fails, changing neither file nor
     memory, when the reservation is no longer held or the write fails.
     */
    method Commit(k: Key, token: Token, writes: bool) returns (ok: bool)
      modifies `notes, file
      ensures ok <==> Holds(old(notes), k, token) && writes
      ensures !ok ==> unchanged(this) && unchanged(file)
      ensures ok ==> notes == old(notes)[k := old(notes)[k].(status := Signed)]
      ensures ok ==> notes == Sign(old(notes), k) && file.Content() == SignedEntries(notes)
      ensures ok ==>
        && (forall j :: j in file.Content() <==> j in notes && notes[j].status == Signed)
        && (forall j | j in file.Content() :: file.Content()[j]
              == Stored(notes[j].validUntil, notes[j].sender, notes[j].nonce, Some(notes[j].token), notes[j].maxGasCost))
    {
      if k !in notes || notes[k].token != token {
        return false;
      }
      var next := notes[k].(status := Signed);
      if !writes {
        return false;
      }
      var entries := SignedEntries(notes)[k := ToStored(next)];
      assert entries == SignedEntries(notes[k := next]);
      file.entries := Some(entries);
      notes := notes[k := next];
      return true;
    }

    method ReleaseReservation(k: Key, token: Token)
      modifies `notes
      ensures notes == Release(old(notes), k, token)
      ensures forall j :: j in notes <==>
        j in old(notes) && !(j == k && old(notes)[j].token == token && old(notes)[j].status == Pending)
      ensures forall j | j in notes :: notes[j] == old(notes)[j]
    {
      if k in notes && notes[k].token == token && notes[k].status == Pending {
        notes := notes - {k};
      }
    }

    method PruneExpired(now: nat)
      modifies `notes
      ensures notes == Prune(old(notes), now)
      ensures forall k :: k in notes <==> k in old(notes) && old(notes)[k].validUntil >= now
      ensures forall k | k in notes :: notes[k] == old(notes)[k]
    {
      var rest := notes.Keys;
      while rest != {}
        invariant rest <= old(notes).Keys
        invariant forall k :: k in notes <==> k in old(notes) && (k in rest || Live(old(notes)[k], now))
        invariant forall k | k in notes :: notes[k] == old(notes)[k]
      {
        var k :| k in rest;
        if notes[k].validUntil < now {
          notes := notes - {k};
        }
        rest := rest - {k};
      }
    }

    /** The entries live at `now`; their total cost is the sum over the unexpired notes. */
    method Outstanding(now: nat) returns (live: seq<Note>)
      ensures forall n :: n in live <==> n in Prune(notes, now).Values
      ensures forall n :: n in live <==> exists k :: k in notes && notes[k] == n && n.validUntil >= now
      ensures TotalCost(live) == Sum(Costs(Prune(notes, now)))
      ensures (forall n :: n in live ==> n.maxGasCost.Some?) <==> AllCostsKnown(Prune(notes, now))
    {
      live := [];
      var rest := notes.Keys;
      ghost var seen: Notes := map[];
      while rest != {}
        invariant rest <= notes.Keys
        invariant forall k :: k in seen <==> k in notes && k !in rest && Live(notes[k], now)
        invariant forall k | k in seen :: seen[k] == notes[k]
        invariant forall n :: n in live <==> n in seen.Values
        invariant TotalCost(live) == Sum(Costs(seen))
      {
        var k :| k in rest;
        if notes[k].validUntil >= now {
          AddCost(seen, k, notes[k], live);
          live := live + [notes[k]];
          seen := seen[k := notes[k]];
        }
        rest := rest - {k};
      }
      assert seen == Prune(notes, now);
    }
  }

  lemma AddCost(seen: Notes, k: Key, n: Note, live: seq<Note>)
    requires k !in seen
    ensures TotalCost(live + [n]) == TotalCost(live) + CostOf(n)
    ensures Sum(Costs(seen[k := n])) == Sum(Costs(seen)) + CostOf(n)
    ensures seen[k := n].Values == seen.Values + {n}
  {
    assert (live + [n])[..|live|] == live;
    assert Costs(seen[k := n]) == Costs(seen)[k := CostOf(n)];
    SumUpdate(Costs(seen), k, CostOf(n));
    var after := seen[k := n];
    assert after[k] == n;
    forall m | m in seen.Values
      ensures m in after.Values
    {
      var j :| j in seen && seen[j] == m;
      assert after[j] == m;
    }
  }
}
