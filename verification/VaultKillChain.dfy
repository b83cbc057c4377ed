/** Kill chain entries stay inside their engagement's model, and the report files each of them once. */
module VaultKillChain {
  import opened Wrappers
  import opened Text
  import opened Times
  import opened VaultState
  import opened VaultSteps
  import opened VaultMachine

  // ---------------------------------------------------------------- every step

  lemma KillChainFrame(v: Vault, v': Vault)
    requires KillChainOk(v) && v'.engagements == v.engagements && v'.entries == v.entries
    ensures KillChainOk(v')
  {
  }

  lemma AddEngagement(v: Vault, id: nat, e: Engagement)
    requires KillChainOk(v) && id !in v.engagements && e.model in KILL_CHAIN_MODELS
    ensures KillChainOk(v.(engagements := v.engagements[id := e]))
  {
    hide StagesFor;
    var v' := v.(engagements := v.engagements[id := e]);
    forall i | i in v'.entries ensures EntryOk(v'.engagements, v'.entries[i]) {
      assert EntryOk(v.engagements, v.entries[i]);
    }
  }

  /** An engagement may change its model only while it has no entries. */
  lemma ChangeEngagement(v: Vault, id: nat, e: Engagement)
    requires KillChainOk(v) && id in v.engagements && e.model in KILL_CHAIN_MODELS
    requires e.model == v.engagements[id].model || !HasEntries(v, id)
    ensures KillChainOk(v.(engagements := v.engagements[id := e]))
  {
    hide StagesFor;
    var v' := v.(engagements := v.engagements[id := e]);
    forall i | i in v'.entries ensures EntryOk(v'.engagements, v'.entries[i]) {
      assert EntryOk(v.engagements, v.entries[i]);
    }
  }

  lemma PutEntry(v: Vault, id: nat, e: Entry)
    requires KillChainOk(v) && EntryOk(v.engagements, e)
    ensures KillChainOk(v.(entries := v.entries[id := e]))
  {
    hide EntryOk;
  }

  lemma WithoutEngagementKillChain(v: Vault, e: nat)
    requires KillChainOk(v)
    ensures KillChainOk(WithoutEngagement(v, e))
  {
    hide StagesFor, TargetIn, NodesOf;
    var v' := WithoutEngagement(v, e);
    forall i | i in v'.entries ensures EntryOk(v'.engagements, v'.entries[i]) {
      assert EntryOk(v.engagements, v.entries[i]);
    }
  }

  lemma DefaultModel()
    ensures LMCKC in KILL_CHAIN_MODELS
  {
  }

  lemma UserStepsKillChain(v: Vault, op: UserOp)
    requires KillChainOk(v) && UserEnabled(v, op)
    ensures KillChainOk(ApplyUser(v, op).0)
  {
    hide KillChainOk, CreateUser, EditUser, DeactivateUser, Strip, GoodLogin;
    var v' := ApplyUser(v, op).0;
    if v'.engagements == v.engagements {
      KillChainFrame(v, v');
    } else {
      var (id, text) := op.engagement.value;
      var name := Strip(text);
      var e := Engagement(name, name, ModelOf(op.model));
      AddEngagement(v, id, e);
      KillChainFrame(v.(engagements := v.engagements[id := e]), v');
    }
  }

  lemma UpdateEngagementKillChain(v: Vault, e: nat, name: Field, client: Field, model: Field)
    requires KillChainOk(v)
    ensures KillChainOk(UpdateEngagement(v, e, name, client, model).0)
  {
    hide EntryOk, HasEntries, EngagementPatchFits, PatchedEngagement;
    if e in v.engagements && EngagementPatchFits(HasEntries(v, e), name, client, model) {
      ChangeEngagement(v, e, PatchedEngagement(v.engagements[e], name, client, model));
    }
  }

  lemma EditEngagementKillChain(v: Vault, e: nat, name: string, client: string, model: Option<string>)
    requires KillChainOk(v)
    ensures KillChainOk(EditEngagement(v, e, name, client, model).0)
  {
    hide EntryOk, HasEntries, Strip;
    var r := EditEngagement(v, e, name, client, model);
    if r.1 == Done {
      ChangeEngagement(v, e, r.0.engagements[e]);
    }
  }

  lemma CreateEngagementKillChain(v: Vault, id: nat, name: Option<string>, client: Option<string>, model: Option<string>)
    requires KillChainOk(v) && id !in v.engagements
    ensures KillChainOk(CreateEngagement(v, id, name, client, model).0)
  {
    hide EntryOk, Strip;
    var r := CreateEngagement(v, id, name, client, model);
    if r.1 == Done {
      AddEngagement(v, id, r.0.engagements[id]);
    }
  }

  lemma EngagementStepsKillChain(v: Vault, op: EngagementOp)
    requires KillChainOk(v) && EngagementEnabled(v, op)
    ensures KillChainOk(ApplyEngagement(v, op).0)
  {
    hide KillChainOk, CreateEngagement, UpdateEngagement, EditEngagement, RequestDeletion, CancelDeletion, WithoutEngagement;
    hide IsActive;
    match op {
      case OpCreateEngagement(id, name, client, model) => CreateEngagementKillChain(v, id, name, client, model);
      case OpUpdateEngagement(e, name, client, model) => UpdateEngagementKillChain(v, e, name, client, model);
      case OpEditEngagement(e, name, client, model) => EditEngagementKillChain(v, e, name, client, model);
      case OpApproveDeletion(_, e, _) => WithoutEngagementKillChain(v, e);
      case _ => KillChainFrame(v, ApplyEngagement(v, op).0);
    }
  }

  lemma CreateEntryKillChain(v: Vault, id: nat, e: nat, stage: Option<string>, title: Option<string>,
                             startedAt: Option<Time>, endedAt: Option<Time>, dialect: Dialect, createdAt: int,
                         lootIds: Option<seq<nat>>)
    requires KillChainOk(v) && id !in v.entries
    ensures KillChainOk(CreateEntry(v, id, e, stage, title, startedAt, endedAt, dialect, createdAt, lootIds).0)
  {
    hide StagesFor, StoredTime, CheckRange, EntryCheck, Strip, Linked, LootOf, KillChainOk;
    if e in v.engagements && EntryCheck(v.engagements[e].model, stage, title, startedAt, endedAt) == Done {
      PutEntry(v, id, Entry(e, stage.value, Strip(title.value), StoredTime(dialect, startedAt),
                            StoredTime(dialect, endedAt), createdAt, Linked(lootIds.GetOr([]), LootOf(v, e))));
    }
  }

  lemma UpdateEntryKillChain(v: Vault, e: nat, id: nat, patch: EntryPatch, dialect: Dialect)
    requires KillChainOk(v)
    ensures KillChainOk(UpdateEntry(v, e, id, patch, dialect).0)
  {
    hide PatchedEntry, EntryPatchCheck, StagesFor, CheckRange, StoredTime, Merged, Linked, LootOf;
    if id in v.entries && v.entries[id].engagement == e && e in v.engagements
       && EntryPatchCheck(v.engagements[e].model, v.entries[id], patch) == Done {
      assert EntryOk(v.engagements, v.entries[id]);
      var now := PatchedEntry(v.entries[id], patch, dialect);
      PutEntry(v, id, now.(loot := if patch.lootIds.Some? then Linked(patch.lootIds.value, LootOf(v, e)) else now.loot));
    }
  }

  lemma WithoutEntryKillChain(v: Vault, id: nat)
    requires KillChainOk(v)
    ensures KillChainOk(WithoutEntry(v, id))
  {
    hide EntryOk;
  }

  lemma RecordStepsKillChain(v: Vault, op: RecordOp)
    requires KillChainOk(v) && RecordEnabled(v, op)
    ensures KillChainOk(ApplyRecord(v, op).0)
  {
    hide KillChainOk, CreateEntry, UpdateEntry, WithoutEntry, CreateFinding, UpdateFinding, DeleteFinding, MapLoot, MapEntry;
    match op {
      case OpCreateEntry(id, e, stage, title, startedAt, endedAt, dialect, createdAt, lootIds) =>
        CreateEntryKillChain(v, id, e, stage, title, startedAt, endedAt, dialect, createdAt, lootIds);
      case OpUpdateEntry(e, id, patch, dialect) => UpdateEntryKillChain(v, e, id, patch, dialect);
      case OpDeleteEntry(e, id) => WithoutEntryKillChain(v, id);
      case _ => KillChainFrame(v, ApplyRecord(v, op).0);
    }
  }

  lemma KillChainKept(v: Vault, op: Op)
    requires KillChainOk(v) && Enabled(v, op)
    ensures KillChainOk(Apply(v, op).0)
  {
    hide KillChainOk, ApplyUser, ApplyEngagement, ApplyGraph, ApplyLoot, ApplyRecord;
    hide UserEnabled, EngagementEnabled, GraphEnabled, LootEnabled, RecordEnabled;
    match op {
      case OfUsers(o) => UserStepsKillChain(v, o);
      case OfEngagements(o) => EngagementStepsKillChain(v, o);
      case OfRecords(o) => RecordStepsKillChain(v, o);
      case _ => KillChainFrame(v, Apply(v, op).0);
    }
  }
}
