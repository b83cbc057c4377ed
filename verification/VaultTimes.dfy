/**
  The time range of a kill chain entry.  It is checked on instants and stored as
  clock readings, so on SQLite an accepted range can end up reversed.
 */
module VaultTimes {
  import opened Wrappers
  import opened Text
  import opened Times
  import opened VaultState
  import opened VaultSteps
  import opened VaultMachine

  /** The request saves an entry's times, and this is the range it saves. */
  predicate Saves(v: Vault, op: Op, id: nat, dialect: Dialect, startedAt: Option<Time>, endedAt: Option<Time>) {
    match op
    case OfRecords(OpCreateEntry(i, _, _, _, s, t, d, _, _)) => i == id && d == dialect && s == startedAt && t == endedAt
    case OfRecords(OpUpdateEntry(_, i, patch, d)) =>
      && i == id && d == dialect && id in v.entries
      && startedAt == Merged(patch.startedAt, v.entries[id].startedAt)
      && endedAt == Merged(patch.endedAt, v.entries[id].endedAt)
    case _ => false
  }

  predicate SameTimes(a: Entry, b: Entry) {
    a.startedAt == b.startedAt && a.endedAt == b.endedAt
  }

  /** An accepted range, as the columns hold it. */
  predicate HoldsRange(entry: Entry, dialect: Dialect, startedAt: Option<Time>, endedAt: Option<Time>) {
    && CheckRange(startedAt, endedAt) == Valid
    && entry.startedAt == StoredTime(dialect, startedAt) && entry.endedAt == StoredTime(dialect, endedAt)
  }

  lemma CreatedTimes(v: Vault, op: RecordOp, id: nat)
    requires RecordEnabled(v, op) && op.OpCreateEntry? && id in ApplyRecord(v, op).0.entries
    ensures var entry := ApplyRecord(v, op).0.entries[id];
      || (id in v.entries && entry == v.entries[id])
      || (id == op.id && HoldsRange(entry, op.dialect, op.startedAt, op.endedAt))
  {
    hide StagesFor, EntryCheck, Strip, Linked, LootOf, CheckRange, StoredTime;
  }

  lemma UpdatedTimes(v: Vault, e: nat, i: nat, patch: EntryPatch, dialect: Dialect, id: nat)
    requires id in UpdateEntry(v, e, i, patch, dialect).0.entries
    ensures id in v.entries
    ensures var entry := UpdateEntry(v, e, i, patch, dialect).0.entries[id];
      || entry == v.entries[id]
      || (id == i && HoldsRange(entry, dialect, Merged(patch.startedAt, v.entries[i].startedAt),
                                Merged(patch.endedAt, v.entries[i].endedAt)))
  {
    hide PatchedEntry, EntryPatchCheck, StagesFor, CheckRange, StoredTime, Merged, Linked, LootOf;
  }

  lemma RecordOpTimes(v: Vault, op: RecordOp, id: nat) returns (d: Dialect, s: Option<Time>, t: Option<Time>)
    requires RecordEnabled(v, op) && id in ApplyRecord(v, op).0.entries
    ensures
      var entry := ApplyRecord(v, op).0.entries[id];
      || (id in v.entries && SameTimes(entry, v.entries[id]))
      || (Saves(v, OfRecords(op), id, d, s, t) && HoldsRange(entry, d, s, t))
  {
    hide HoldsRange, Merged, CreateEntry, UpdateEntry, WithoutEntry;
    hide CreateFinding, UpdateFinding, DeleteFinding, MapLoot, MapEntry, DeleteMapping;
    d, s, t := Sqlite, None, None;
    match op {
      case OpCreateEntry(_, _, _, _, startedAt, endedAt, dialect, _, _) =>
        CreatedTimes(v, op, id);
        d, s, t := dialect, startedAt, endedAt;
      case OpUpdateEntry(e, i, patch, dialect) =>
        UpdatedTimes(v, e, i, patch, dialect, id);
        if i in v.entries {
          d, s, t := dialect, Merged(patch.startedAt, v.entries[i].startedAt), Merged(patch.endedAt, v.entries[i].endedAt);
        }
      case OpDeleteEntry(_, i) =>
        OthersStay(v, i, id);
      case _ =>
    }
  }

  lemma OthersStay(v: Vault, i: nat, id: nat)
    ensures id in WithoutEntry(v, i).entries ==> id in v.entries && WithoutEntry(v, i).entries[id] == v.entries[id]
  {
  }

  lemma EngagementOpTimes(v: Vault, op: EngagementOp, id: nat)
    requires EngagementEnabled(v, op) && id in ApplyEngagement(v, op).0.entries
    ensures id in v.entries && ApplyEngagement(v, op).0.entries[id] == v.entries[id]
  {
    hide CreateEngagement, UpdateEngagement, EditEngagement, RequestDeletion, CancelDeletion, IsActive, TargetIn, NodesOf;
  }

  /** An entry's times are as before the request, or the request saved them. */
  lemma StepTimes(v: Vault, op: Op, id: nat) returns (d: Dialect, s: Option<Time>, t: Option<Time>)
    requires Enabled(v, op) && id in Apply(v, op).0.entries
    ensures
      var entry := Apply(v, op).0.entries[id];
      || (id in v.entries && SameTimes(entry, v.entries[id]))
      || (Saves(v, op, id, d, s, t) && HoldsRange(entry, d, s, t))
  {
    hide ApplyUser, ApplyEngagement, ApplyGraph, ApplyLoot, ApplyRecord, HoldsRange;
    hide UserEnabled, EngagementEnabled, GraphEnabled, LootEnabled, RecordEnabled;
    d, s, t := Sqlite, None, None;
    match op {
      case OfRecords(o) => d, s, t := RecordOpTimes(v, o, id);
      case OfEngagements(o) => EngagementOpTimes(v, o, id);
      case _ =>
    }
  }

  /**
    Every entry's times come from a request that saved them and whose range was
    accepted.  On Postgres they are in order; on SQLite they are in order
    exactly when the end's clock reading is no earlier than the start's.
   */
  lemma {:induction false} TimesTraced(ops: seq<Op>, vaults: seq<Vault>, k: nat, id: nat)
    returns (j: nat, d: Dialect, s: Option<Time>, t: Option<Time>)
    requires IsRun(ops, vaults) && k < |vaults| && id in vaults[k].entries
    ensures j < k && Saves(vaults[j], ops[j], id, d, s, t) && HoldsRange(vaults[k].entries[id], d, s, t)
    ensures InOrder(vaults[k].entries[id].startedAt, vaults[k].entries[id].endedAt)
       <==> (d.Postgres? || (s.Some? && t.Some? ==> t.value.clock >= s.value.clock))
    decreases k
  {
    hide Apply, Enabled, Saves;
    assert k > 0;
    assert Enabled(vaults[k - 1], ops[k - 1]) && vaults[k] == Apply(vaults[k - 1], ops[k - 1]).0;
    j := k - 1;
    d, s, t := StepTimes(vaults[j], ops[j], id);
    if id in vaults[j].entries && SameTimes(vaults[k].entries[id], vaults[j].entries[id]) {
      j, d, s, t := TimesTraced(ops, vaults, k - 1, id);
    }
    StoredInOrderIff(d, s, t);
  }

  // ---------------------------------------------------------------- when the order is kept

  /** The times a request submits together carry the same offset, or none. */
  predicate OffsetsAgree(op: Op) {
    match op
    case OfRecords(OpCreateEntry(_, _, _, _, s, t, d, _, _)) => d.Postgres? || SameOffset(s, t)
    case OfRecords(OpUpdateEntry(_, _, patch, d)) =>
      d.Postgres? || (patch.startedAt.Some? && patch.endedAt.Some? ==> SameOffset(patch.startedAt.value, patch.endedAt.value))
    case _ => true
  }

  /** A submitted time with an offset is never saved next to a stored one. */
  lemma SavedOffsetsAgree(v: Vault, op: Op, id: nat, d: Dialect, s: Option<Time>, t: Option<Time>)
    requires Saves(v, op, id, d, s, t) && CheckRange(s, t) == Valid && OffsetsAgree(op)
    ensures d.Postgres? || SameOffset(s, t)
  {
  }

  /** A run that never submits two times with different offsets keeps every entry's range in order. */
  lemma EntriesStayInOrder(ops: seq<Op>, vaults: seq<Vault>, k: nat, id: nat)
    requires IsRun(ops, vaults) && k < |vaults| && id in vaults[k].entries
    requires forall j :: 0 <= j < k ==> OffsetsAgree(ops[j])
    ensures InOrder(vaults[k].entries[id].startedAt, vaults[k].entries[id].endedAt)
  {
    hide Apply, Enabled, Saves, OffsetsAgree, CheckRange, StoredTime;
    var j, d, s, t := TimesTraced(ops, vaults, k, id);
    SavedOffsetsAgree(vaults[j], ops[j], id, d, s, t);
    if d.Postgres? {
    } else {
      SameOffsetKeepsOrder(d, s, t);
    }
  }

  // ---------------------------------------------------------------- when it is not

  /**
    An entry from 10:00+00:00 to 09:00-05:00 is accepted, since it ends four
    hours after it starts.  Postgres stores it in order, SQLite reversed, and
    there no later PATCH of it is accepted that does not mend a time.
   */
  lemma OffsetsLoseOrder(v: Vault, id: nat, e: nat, stage: string, title: string, dialect: Dialect, createdAt: int,
                         patch: EntryPatch)
    requires id !in v.entries && e in v.engagements && Given(Some(stage)) && Given(Some(title))
    requires stage in StagesFor(v.engagements[e].model)
    requires patch.startedAt.None? && patch.endedAt.None?
    ensures
      var r := CreateEntry(v, id, e, Some(stage), Some(title), Some(Time(600, Some(0))), Some(Time(540, Some(-300))),
                           dialect, createdAt, None);
      && r.1 == Done
      && (InOrder(r.0.entries[id].startedAt, r.0.entries[id].endedAt) <==> dialect.Postgres?)
      && (dialect.Sqlite? ==> UpdateEntry(r.0, e, id, patch, dialect).1 != Done)
  {
    hide StagesFor, Strip, Given, Linked, LootOf;
    var s, t := Some(Time(600, Some(0))), Some(Time(540, Some(-300)));
    assert CheckRange(s, t) == Valid;
    var r := CreateEntry(v, id, e, Some(stage), Some(title), s, t, dialect, createdAt, None);
    if dialect.Sqlite? {
      ReversedIsStuck(r.0, e, id, patch, dialect);
    }
  }

  /** Once a range is stored reversed, a PATCH that leaves both times alone is refused. */
  lemma ReversedIsStuck(v: Vault, e: nat, id: nat, patch: EntryPatch, dialect: Dialect)
    requires id in v.entries && !InOrder(v.entries[id].startedAt, v.entries[id].endedAt)
    requires patch.startedAt.None? && patch.endedAt.None?
    ensures UpdateEntry(v, e, id, patch, dialect).1 != Done
  {
    hide StagesFor, StrOrNone;
    assert CheckRange(Merged(patch.startedAt, v.entries[id].startedAt), Merged(patch.endedAt, v.entries[id].endedAt))
        == EndsFirst;
  }

  /** A PATCH of one time with an offset, next to a stored other one, is an unhandled error when all else is in order. */
  lemma MixedPatchRaises(v: Vault, e: nat, id: nat, start: Time, dialect: Dialect)
    requires id in v.entries && v.entries[id].engagement == e && e in v.engagements
    requires start.offset.Some? && v.entries[id].endedAt.Some?
    ensures UpdateEntry(v, e, id, EntryPatch(None, None, Some(Some(start)), None, None), dialect).1 == Aborted(500)
  {
    hide StagesFor, StrOrNone;
  }
}
