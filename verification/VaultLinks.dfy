/** Findings, kill chain entries and technique mappings only ever refer to rows of their own engagement. */
module VaultLinks {
  import opened Wrappers
  import opened Text
  import opened Times
  import opened VaultState
  import opened VaultSteps
  import opened VaultMachine
  import VaultGraph

  // ---------------------------------------------------------------- adding rows breaks no link

  /** Every row links may lead to is still there, in the same engagement. */
  predicate Extends(v: Vault, v': Vault) {
    && v.engagements.Keys <= v'.engagements.Keys
    && (forall i <- v.loot :: i in v'.loot && v'.loot[i].engagement == v.loot[i].engagement)
    && (forall i <- v.nodes :: i in v'.nodes && v'.nodes[i].engagement == v.nodes[i].engagement)
    && (forall i <- v.credentials :: i in v'.credentials && v'.credentials[i] == v.credentials[i])
    && (forall i <- v.iocs :: i in v'.iocs && v'.iocs[i] == v.iocs[i])
    && (forall i <- v.entries :: i in v'.entries && v'.entries[i].engagement == v.entries[i].engagement)
  }

  /** The rows links lead to belong to existing engagements. */
  predicate OwnersOk(v: Vault) {
    && (forall id <- v.loot :: v.loot[id].engagement in v.engagements)
    && (forall id <- v.credentials :: v.credentials[id] in v.engagements)
    && (forall id <- v.iocs :: v.iocs[id] in v.engagements)
  }

  lemma Owners(v: Vault)
    requires LinksOk(v)
    ensures OwnersOk(v)
  {
  }

  lemma FindingStays(v: Vault, v': Vault, f: Finding)
    requires Extends(v, v') && FindingOk(v, f)
    ensures FindingOk(v', f)
  {
  }

  lemma EntryLinksStay(v: Vault, v': Vault, e: Entry)
    requires Extends(v, v') && EntryLinksOk(v, e)
    ensures EntryLinksOk(v', e)
  {
  }

  lemma MappingStays(v: Vault, v': Vault, m: Mapping)
    requires Extends(v, v') && MappingOk(v, m)
    ensures MappingOk(v', m)
  {
  }

  /** Links survive when their targets stay and every changed link is itself in order. */
  lemma LinksExtend(v: Vault, v': Vault)
    requires LinksOk(v) && Extends(v, v') && OwnersOk(v')
    requires forall id <- v'.findings :: (id in v.findings && v'.findings[id] == v.findings[id]) || FindingOk(v', v'.findings[id])
    requires forall id <- v'.entries :: (id in v.entries && v'.entries[id] == v.entries[id]) || EntryLinksOk(v', v'.entries[id])
    requires forall id <- v'.mappings :: (id in v.mappings && v'.mappings[id] == v.mappings[id]) || MappingOk(v', v'.mappings[id])
    ensures LinksOk(v')
  {
    hide FindingOk, EntryLinksOk, MappingOk, Extends;
    forall id | id in v'.findings ensures FindingOk(v', v'.findings[id]) {
      if id in v.findings && v'.findings[id] == v.findings[id] {
        FindingStays(v, v', v.findings[id]);
      }
    }
    forall id | id in v'.entries ensures EntryLinksOk(v', v'.entries[id]) {
      if id in v.entries && v'.entries[id] == v.entries[id] {
        EntryLinksStay(v, v', v.entries[id]);
      }
    }
    forall id | id in v'.mappings ensures MappingOk(v', v'.mappings[id]) {
      if id in v.mappings && v'.mappings[id] == v.mappings[id] {
        MappingStays(v, v', v.mappings[id]);
      }
    }
  }

  /** A step that touches no link and keeps the rows links lead to. */
  lemma LinksFrame(v: Vault, v': Vault)
    requires LinksOk(v) && Extends(v, v') && OwnersOk(v')
    requires v'.findings == v.findings && v'.entries == v.entries && v'.mappings == v.mappings
    ensures LinksOk(v')
  {
    hide FindingOk, EntryLinksOk, MappingOk, Extends;
    LinksExtend(v, v');
  }

  lemma ExtendsSame(v: Vault, v': Vault)
    requires v.engagements.Keys <= v'.engagements.Keys && v'.loot == v.loot && v'.nodes == v.nodes
    requires v'.credentials == v.credentials && v'.iocs == v.iocs && v'.entries == v.entries
    ensures Extends(v, v')
    ensures OwnersOk(v) ==> OwnersOk(v')
  {
  }

  // ---------------------------------------------------------------- deletes

  lemma WithoutNodeLinks(v: Vault, id: nat)
    requires LinksOk(v)
    ensures LinksOk(WithoutNode(v, id))
  {
    var v' := WithoutNode(v, id);
    forall i | i in v'.findings ensures FindingOk(v', v'.findings[i]) {
      var f := v.findings[i];
      assert FindingOk(v, f);
      assert NodesOf(v', f.engagement) == NodesOf(v, f.engagement) - {id};
    }
    SameLoot(v, v');
  }

  /** Entries and mappings do not notice a change of findings, nodes, credentials or IOCs. */
  lemma SameLoot(v: Vault, v': Vault)
    requires LinksOk(v) && v'.engagements == v.engagements && v'.loot == v.loot && v'.entries == v.entries
    ensures forall i <- v'.entries :: EntryLinksOk(v', v'.entries[i])
    ensures forall i <- v.mappings :: MappingOk(v', v.mappings[i])
  {
    hide FindingOk;
    forall e ensures LootOf(v', e) == LootOf(v, e) && EntriesOf(v', e) == EntriesOf(v, e) {
    }
    forall i | i in v'.entries ensures EntryLinksOk(v', v'.entries[i]) {
      assert EntryLinksOk(v, v.entries[i]);
    }
    forall i | i in v.mappings ensures MappingOk(v', v.mappings[i]) {
      assert MappingOk(v, v.mappings[i]);
    }
  }

  lemma DeleteCredentialLinks(v: Vault, e: nat, id: nat)
    requires LinksOk(v)
    ensures LinksOk(DeleteCredential(v, e, id).0)
  {
    var v' := DeleteCredential(v, e, id).0;
    forall i | i in v'.findings ensures FindingOk(v', v'.findings[i]) {
      assert FindingOk(v, v.findings[i]);
    }
    SameLoot(v, v');
  }

  lemma DeleteIocLinks(v: Vault, e: nat, id: nat)
    requires LinksOk(v)
    ensures LinksOk(DeleteIoc(v, e, id).0)
  {
    var v' := DeleteIoc(v, e, id).0;
    forall i | i in v'.findings ensures FindingOk(v', v'.findings[i]) {
      assert FindingOk(v, v.findings[i]);
    }
    SameLoot(v, v');
  }

  /** The file's row and mappings gone, everything else as it was. */
  function WithoutLoot(v: Vault, id: nat): Vault {
    v.(loot := v.loot - {id}, mappings := MappingsWithoutLoot(v.mappings, id))
  }

  lemma OtherLootStays(v: Vault, id: nat, e: nat)
    ensures LootOf(WithoutLoot(v, id), e) == LootOf(v, e) - {id}
    ensures NodesOf(WithoutLoot(v, id), e) == NodesOf(v, e) && EntriesOf(WithoutLoot(v, id), e) == EntriesOf(v, e)
    ensures CredentialsOf(WithoutLoot(v, id), e) == CredentialsOf(v, e) && IocsOf(WithoutLoot(v, id), e) == IocsOf(v, e)
  {
  }

  lemma FindingWithoutLoot(v: Vault, id: nat, f: nat)
    requires LinksOk(v) && f in v.findings && !LootIsLinked(v, id)
    ensures FindingOk(WithoutLoot(v, id), v.findings[f])
  {
    hide LootOf, NodesOf, CredentialsOf, IocsOf, EntriesOf;
    assert FindingOk(v, v.findings[f]);
    OtherLootStays(v, id, v.findings[f].engagement);
  }

  lemma EntryWithoutLoot(v: Vault, id: nat, k: nat)
    requires LinksOk(v) && k in v.entries && !LootIsLinked(v, id)
    ensures EntryLinksOk(WithoutLoot(v, id), v.entries[k])
  {
    hide LootOf, NodesOf, CredentialsOf, IocsOf, EntriesOf;
    assert EntryLinksOk(v, v.entries[k]);
    OtherLootStays(v, id, v.entries[k].engagement);
  }

  lemma MappingWithoutLoot(v: Vault, id: nat, m: Mapping)
    requires MappingOk(v, m) && m.lootFile != Some(id)
    ensures MappingOk(WithoutLoot(v, id), m)
  {
    hide LootOf, NodesOf, CredentialsOf, IocsOf, EntriesOf;
    OtherLootStays(v, id, m.engagement);
  }

  lemma DeleteLootLinks(v: Vault, e: nat, id: nat)
    requires LinksOk(v)
    ensures LinksOk(DeleteLoot(v, e, id).0)
  {
    hide LootIsLinked, FindingOk, EntryLinksOk, MappingOk;
    if DeleteLoot(v, e, id).1 == Done {
      var v' := WithoutLoot(v, id);
      forall f | f in v.findings ensures FindingOk(v', v.findings[f]) {
        FindingWithoutLoot(v, id, f);
      }
      forall k | k in v.entries ensures EntryLinksOk(v', v.entries[k]) {
        EntryWithoutLoot(v, id, k);
      }
      forall i | i in v'.mappings ensures MappingOk(v', v'.mappings[i]) {
        MappingWithoutLoot(v, id, v.mappings[i]);
      }
    }
  }

  lemma WithoutEntryLinks(v: Vault, id: nat)
    requires LinksOk(v)
    ensures LinksOk(WithoutEntry(v, id))
  {
    var v' := WithoutEntry(v, id);
    forall i | i in v'.findings ensures FindingOk(v', v'.findings[i]) {
      assert FindingOk(v, v.findings[i]);
    }
    forall i | i in v'.entries ensures EntryLinksOk(v', v'.entries[i]) {
      assert EntryLinksOk(v, v.entries[i]);
    }
    forall i | i in v'.mappings ensures MappingOk(v', v'.mappings[i]) {
      assert MappingOk(v, v.mappings[i]);
    }
  }

  /** Other engagements keep all their rows. */
  lemma OthersKeepRows(v: Vault, e: nat, other: nat)
    requires other != e
    ensures var v' := WithoutEngagement(v, e);
            && LootOf(v', other) == LootOf(v, other) && NodesOf(v', other) == NodesOf(v, other)
            && CredentialsOf(v', other) == CredentialsOf(v, other) && IocsOf(v', other) == IocsOf(v, other)
            && EntriesOf(v', other) == EntriesOf(v, other)
  {
    hide TargetIn;
  }

  /** A mapping that stays belongs to another engagement, because its target did. */
  lemma MappingSurvives(v: Vault, e: nat, m: Mapping)
    requires MappingOk(v, m) && !TargetIn(m, v.loot, v.entries, e)
    ensures MappingOk(WithoutEngagement(v, e), m)
  {
    assert m.engagement != e;
    OthersKeepRows(v, e, m.engagement);
    assert m.engagement in WithoutEngagement(v, e).engagements;
  }

  lemma FindingSurvives(v: Vault, e: nat, f: Finding)
    requires FindingOk(v, f) && f.engagement != e
    ensures FindingOk(WithoutEngagement(v, e), f)
  {
    OthersKeepRows(v, e, f.engagement);
    assert f.engagement in WithoutEngagement(v, e).engagements;
  }

  lemma EntryLinksSurvive(v: Vault, e: nat, k: Entry)
    requires EntryLinksOk(v, k) && k.engagement != e
    ensures EntryLinksOk(WithoutEngagement(v, e), k)
  {
    OthersKeepRows(v, e, k.engagement);
    assert k.engagement in WithoutEngagement(v, e).engagements;
  }

  lemma WithoutEngagementLinks(v: Vault, e: nat)
    requires LinksOk(v)
    ensures LinksOk(WithoutEngagement(v, e))
  {
    hide FindingOk, EntryLinksOk, MappingOk, TargetIn, NodesOf;
    var v' := WithoutEngagement(v, e);
    forall i | i in v'.findings ensures FindingOk(v', v'.findings[i]) {
      FindingSurvives(v, e, v.findings[i]);
    }
    forall i | i in v'.entries ensures EntryLinksOk(v', v'.entries[i]) {
      EntryLinksSurvive(v, e, v.entries[i]);
    }
    forall i | i in v'.mappings ensures MappingOk(v', v'.mappings[i]) {
      MappingSurvives(v, e, v.mappings[i]);
    }
  }

  // ---------------------------------------------------------------- writes

  lemma PutEntryLinks(v: Vault, id: nat, e: Entry)
    requires LinksOk(v) && EntryLinksOk(v, e) && (id in v.entries ==> v.entries[id].engagement == e.engagement)
    ensures LinksOk(v.(entries := v.entries[id := e]))
  {
    hide FindingOk, EntryLinksOk, MappingOk, LootOf;
    var v' := v.(entries := v.entries[id := e]);
    Owners(v);
    EntryLinksStay(v, v', e);
    LinksExtend(v, v');
  }

  lemma LinkedWithin(ids: seq<nat>, rows: set<nat>)
    ensures Linked(ids, rows) <= rows
  {
  }

  lemma CreateEntryLinks(v: Vault, id: nat, e: nat, stage: Option<string>, title: Option<string>,
                         startedAt: Option<Time>, endedAt: Option<Time>, dialect: Dialect, createdAt: int,
                         lootIds: Option<seq<nat>>)
    requires LinksOk(v) && id !in v.entries
    ensures LinksOk(CreateEntry(v, id, e, stage, title, startedAt, endedAt, dialect, createdAt, lootIds).0)
  {
    hide StagesFor, StoredTime, CheckRange, EntryCheck, Strip, LinksOk, LootOf, Linked;
    if e in v.engagements && EntryCheck(v.engagements[e].model, stage, title, startedAt, endedAt) == Done {
      LinkedWithin(lootIds.GetOr([]), LootOf(v, e));
      PutEntryLinks(v, id, Entry(e, stage.value, Strip(title.value), StoredTime(dialect, startedAt),
                                 StoredTime(dialect, endedAt), createdAt, Linked(lootIds.GetOr([]), LootOf(v, e))));
    }
  }

  lemma UpdateEntryLinks(v: Vault, e: nat, id: nat, patch: EntryPatch, dialect: Dialect)
    requires LinksOk(v)
    ensures LinksOk(UpdateEntry(v, e, id, patch, dialect).0)
  {
    hide PatchedEntry, EntryPatchCheck, StagesFor, CheckRange, StoredTime, Merged, Linked, LootOf, FindingOk, MappingOk;
    if id in v.entries && v.entries[id].engagement == e && e in v.engagements
       && EntryPatchCheck(v.engagements[e].model, v.entries[id], patch) == Done {
      assert EntryLinksOk(v, v.entries[id]);
      if patch.lootIds.Some? {
        LinkedWithin(patch.lootIds.value, LootOf(v, e));
      }
      var now := PatchedEntry(v.entries[id], patch, dialect);
      PutEntryLinks(v, id, now.(loot := if patch.lootIds.Some? then Linked(patch.lootIds.value, LootOf(v, e)) else now.loot));
    }
  }

  lemma CorrelatedOk(v: Vault, e: nat, title: string, severity: string, ids: LinkIds)
    requires e in v.engagements
    ensures FindingOk(v, Finding(e, title, severity, Correlated(v, e, ids)))
  {
  }

  lemma PutFinding(v: Vault, id: nat, f: Finding)
    requires LinksOk(v) && FindingOk(v, f)
    ensures LinksOk(v.(findings := v.findings[id := f]))
  {
    hide FindingOk, EntryLinksOk, MappingOk;
    var v' := v.(findings := v.findings[id := f]);
    Owners(v);
    FindingStays(v, v', f);
    LinksExtend(v, v');
  }

  lemma CreateFindingLinks(v: Vault, id: nat, e: nat, title: Option<string>, severity: Option<string>, ids: LinkIds)
    requires LinksOk(v) && id !in v.findings
    ensures LinksOk(CreateFinding(v, id, e, title, severity, ids).0)
  {
    hide LinksOk, FindingOk, Strip, Correlated;
    if CreateFinding(v, id, e, title, severity, ids).1 == Done {
      CorrelatedOk(v, e, Strip(title.value), severity.value, ids);
      PutFinding(v, id, Finding(e, Strip(title.value), severity.value, Correlated(v, e, ids)));
    }
  }

  lemma UpdateFindingLinks(v: Vault, e: nat, id: nat, title: Field, severity: Field, ids: Option<LinkIds>)
    requires LinksOk(v)
    ensures LinksOk(UpdateFinding(v, e, id, title, severity, ids).0)
  {
    hide StrOrNone, Correlated, EntryLinksOk, MappingOk;
    var r := UpdateFinding(v, e, id, title, severity, ids);
    if r.1 == Done {
      assert FindingOk(v, v.findings[id]);
      var f := r.0.findings[id];
      if ids.Some? {
        CorrelatedOk(v, e, f.title, f.severity, ids.value);
      }
      PutFinding(v, id, f);
    }
  }

  lemma PutMapping(v: Vault, id: nat, m: Mapping)
    requires LinksOk(v) && MappingOk(v, m)
    ensures LinksOk(v.(mappings := v.mappings[id := m]))
  {
    hide FindingOk, EntryLinksOk, MappingOk;
    var v' := v.(mappings := v.mappings[id := m]);
    Owners(v);
    MappingStays(v, v', m);
    LinksExtend(v, v');
  }

  lemma EntryHasEngagement(v: Vault, id: nat)
    requires LinksOk(v) && id in v.entries
    ensures v.entries[id].engagement in v.engagements
  {
    assert EntryLinksOk(v, v.entries[id]);
  }

  lemma MapLinks(v: Vault, id: nat, e: nat, target: nat, technique: Option<nat>)
    requires LinksOk(v) && id !in v.mappings
    ensures LinksOk(MapLoot(v, id, e, target, technique).0)
    ensures LinksOk(MapEntry(v, id, e, target, technique).0)
  {
    hide LinksOk;
    if MapLoot(v, id, e, target, technique).1 == Done {
      Owners(v);
      PutMapping(v, id, Mapping(e, technique.value, Some(target), None));
    }
    if MapEntry(v, id, e, target, technique).1 == Done {
      EntryHasEngagement(v, target);
      PutMapping(v, id, Mapping(e, technique.value, None, Some(target)));
    }
  }

  lemma FewerLinks(v: Vault, v': Vault)
    requires LinksOk(v) && v' == v.(findings := v'.findings, mappings := v'.mappings)
    requires forall id <- v'.findings :: id in v.findings && v'.findings[id] == v.findings[id]
    requires forall id <- v'.mappings :: id in v.mappings && v'.mappings[id] == v.mappings[id]
    ensures LinksOk(v')
  {
    hide FindingOk, EntryLinksOk, MappingOk;
    Owners(v);
    LinksExtend(v, v');
  }

  // ---------------------------------------------------------------- every step

  lemma SetUpExtends(v: Vault, v': Vault)
    requires v' == v.(users := v'.users, engagements := v'.engagements) && v.engagements.Keys <= v'.engagements.Keys
    requires LinksOk(v)
    ensures LinksOk(v')
  {
    hide LinksOk, Extends, OwnersOk;
    Owners(v);
    ExtendsSame(v, v');
    LinksFrame(v, v');
  }

  lemma UserStepsLinks(v: Vault, op: UserOp)
    requires LinksOk(v) && UserEnabled(v, op)
    ensures LinksOk(ApplyUser(v, op).0)
  {
    hide LinksOk, CreateUser, EditUser, DeactivateUser, Strip, GoodLogin;
    SetUpExtends(v, ApplyUser(v, op).0);
  }

  lemma EngagementStepsLinks(v: Vault, op: EngagementOp)
    requires LinksOk(v) && EngagementEnabled(v, op)
    ensures LinksOk(ApplyEngagement(v, op).0)
  {
    hide LinksOk, WithoutEngagement, CreateEngagement, UpdateEngagement, EditEngagement, RequestDeletion, CancelDeletion;
    hide IsActive, Extends, OwnersOk;
    Owners(v);
    if op.OpApproveDeletion? {
      WithoutEngagementLinks(v, op.e);
    } else {
      VaultGraph.EngagementsStay(v, op);
      ExtendsSame(v, ApplyEngagement(v, op).0);
      LinksFrame(v, ApplyEngagement(v, op).0);
    }
  }

  lemma NodesChange(v: Vault, v': Vault)
    requires LinksOk(v) && v' == v.(nodes := v'.nodes)
    requires forall i <- v.nodes :: i in v'.nodes && v'.nodes[i].engagement == v.nodes[i].engagement
    ensures LinksOk(v')
  {
    hide LinksOk;
    Owners(v);
    LinksFrame(v, v');
  }

  lemma UpdateNodeKeeps(v: Vault, pane: Pane, e: nat, id: nat, patch: NodePatch)
    ensures var nodes := UpdateNode(v, pane, e, id, patch).0.nodes;
            forall i <- v.nodes :: i in nodes && nodes[i].engagement == v.nodes[i].engagement
  {
    hide UpdateNode, PaneOf;
    var nodes := UpdateNode(v, pane, e, id, patch).0.nodes;
    forall i | i in v.nodes ensures i in nodes && nodes[i].engagement == v.nodes[i].engagement {
      assert i in nodes.Keys;
      VaultGraph.UpdateNodeStays(v, pane, e, id, patch, i);
    }
  }

  lemma EdgesChange(v: Vault, v': Vault)
    requires LinksOk(v) && v' == v.(edges := v'.edges)
    ensures LinksOk(v')
  {
    hide LinksOk, Extends, OwnersOk;
    Owners(v);
    ExtendsSame(v, v');
    LinksFrame(v, v');
  }

  lemma GraphStepsLinks(v: Vault, op: GraphOp)
    requires LinksOk(v) && GraphEnabled(v, op)
    ensures LinksOk(ApplyGraph(v, op).0)
  {
    hide LinksOk, CreateNode, UpdateNode, WithoutNode, CreateEdge, UpdateEdge, DeleteEdge, PaneOf;
    match op {
      case OpCreateNode(_, _, _, _, _, _, _) =>
        NodesChange(v, ApplyGraph(v, op).0);
      case OpUpdateNode(pane, e, id, patch) =>
        UpdateNodeKeeps(v, pane, e, id, patch);
        NodesChange(v, ApplyGraph(v, op).0);
      case OpDeleteNode(_, _, id) =>
        WithoutNodeLinks(v, id);
      case _ =>
        EdgesChange(v, ApplyGraph(v, op).0);
    }
  }

  lemma LootAdded(v: Vault, v': Vault, id: nat)
    requires LinksOk(v) && v' == v.(nodes := v'.nodes, loot := v'.loot)
    requires forall i <- v.nodes :: i in v'.nodes && v'.nodes[i] == v.nodes[i]
    requires id in v'.loot && v'.loot == v.loot[id := v'.loot[id]] && v'.loot[id].engagement in v.engagements
    requires id in v.loot ==> v'.loot[id].engagement == v.loot[id].engagement
    ensures LinksOk(v')
  {
    hide LinksOk;
    Owners(v);
    LinksFrame(v, v');
  }

  lemma UploadLootLinks(v: Vault, id: nat, nodeId: nat, e: nat, uploaded: bool, knownCategory: bool, host: string, isIp: bool)
    requires LinksOk(v) && id !in v.loot && nodeId !in v.nodes
    ensures LinksOk(UploadLoot(v, id, nodeId, e, uploaded, knownCategory, host, isIp).0)
  {
    hide LinksOk, ResolveOrigin;
    var r := UploadLoot(v, id, nodeId, e, uploaded, knownCategory, host, isIp);
    if r.1 == Done {
      LootAdded(v, r.0, id);
    }
  }

  lemma UpdateLootLinks(v: Vault, nodeId: nat, e: nat, id: nat, knownCategory: bool, host: Option<string>, isIp: bool)
    requires LinksOk(v) && nodeId !in v.nodes
    ensures LinksOk(UpdateLoot(v, nodeId, e, id, knownCategory, host, isIp).0)
  {
    hide LinksOk, ResolveOrigin;
    var r := UpdateLoot(v, nodeId, e, id, knownCategory, host, isIp);
    if r.1 == Done && host.Some? {
      Owners(v);
      LootAdded(v, r.0, id);
    }
  }

  lemma AddCredential(v: Vault, id: nat, e: nat)
    requires LinksOk(v) && id !in v.credentials && e in v.engagements
    ensures LinksOk(v.(credentials := v.credentials[id := e]))
  {
    hide LinksOk;
    var v' := v.(credentials := v.credentials[id := e]);
    Owners(v);
    assert Extends(v, v');
    assert OwnersOk(v');
    LinksFrame(v, v');
  }

  lemma AddIoc(v: Vault, id: nat, e: nat)
    requires LinksOk(v) && id !in v.iocs && e in v.engagements
    ensures LinksOk(v.(iocs := v.iocs[id := e]))
  {
    hide LinksOk;
    var v' := v.(iocs := v.iocs[id := e]);
    Owners(v);
    assert Extends(v, v');
    assert OwnersOk(v');
    LinksFrame(v, v');
  }

  lemma CreateLinks(v: Vault, id: nat, e: nat)
    requires LinksOk(v)
    ensures id !in v.credentials ==> LinksOk(CreateCredential(v, id, e).0)
    ensures id !in v.iocs ==> LinksOk(CreateIoc(v, id, e).0)
  {
    hide LinksOk;
    if id !in v.credentials && e in v.engagements {
      AddCredential(v, id, e);
    }
    if id !in v.iocs && e in v.engagements {
      AddIoc(v, id, e);
    }
  }

  lemma LootStepsLinks(v: Vault, op: LootOp)
    requires LinksOk(v) && LootEnabled(v, op)
    ensures LinksOk(ApplyLoot(v, op).0)
  {
    hide LinksOk, UploadLoot, UpdateLoot, DeleteLoot, CreateCredential, DeleteCredential, CreateIoc, DeleteIoc;
    match op {
      case OpUploadLoot(id, nodeId, e, uploaded, knownCategory, host, isIp) =>
        UploadLootLinks(v, id, nodeId, e, uploaded, knownCategory, host, isIp);
      case OpUpdateLoot(nodeId, e, id, knownCategory, host, isIp) =>
        UpdateLootLinks(v, nodeId, e, id, knownCategory, host, isIp);
      case OpDeleteLoot(e, id) => DeleteLootLinks(v, e, id);
      case OpCreateCredential(id, e) => CreateLinks(v, id, e);
      case OpDeleteCredential(e, id) => DeleteCredentialLinks(v, e, id);
      case OpCreateIoc(id, e) => CreateLinks(v, id, e);
      case OpDeleteIoc(e, id) => DeleteIocLinks(v, e, id);
    }
  }

  lemma DeleteFindingLinks(v: Vault, e: nat, id: nat)
    requires LinksOk(v)
    ensures LinksOk(DeleteFinding(v, e, id).0)
  {
    hide LinksOk;
    FewerLinks(v, DeleteFinding(v, e, id).0);
  }

  lemma DeleteMappingLinks(v: Vault, id: nat)
    requires LinksOk(v)
    ensures LinksOk(DeleteMapping(v, id).0)
  {
    hide LinksOk;
    FewerLinks(v, DeleteMapping(v, id).0);
  }

  lemma DeleteEntryLinks(v: Vault, e: nat, id: nat)
    requires LinksOk(v)
    ensures LinksOk(DeleteEntry(v, e, id).0)
  {
    hide LinksOk, WithoutEntry;
    WithoutEntryLinks(v, id);
  }

  lemma RecordStepsLinks(v: Vault, op: RecordOp)
    requires LinksOk(v) && RecordEnabled(v, op)
    ensures LinksOk(ApplyRecord(v, op).0)
  {
    hide LinksOk, CreateEntry, UpdateEntry, DeleteEntry, CreateFinding, UpdateFinding, DeleteFinding;
    hide MapLoot, MapEntry, DeleteMapping;
    match op {
      case OpCreateEntry(id, e, stage, title, startedAt, endedAt, dialect, createdAt, lootIds) =>
        CreateEntryLinks(v, id, e, stage, title, startedAt, endedAt, dialect, createdAt, lootIds);
      case OpUpdateEntry(e, id, patch, dialect) => UpdateEntryLinks(v, e, id, patch, dialect);
      case OpDeleteEntry(e, id) => DeleteEntryLinks(v, e, id);
      case OpCreateFinding(id, e, title, severity, ids) => CreateFindingLinks(v, id, e, title, severity, ids);
      case OpUpdateFinding(e, id, title, severity, ids) => UpdateFindingLinks(v, e, id, title, severity, ids);
      case OpDeleteFinding(e, id) => DeleteFindingLinks(v, e, id);
      case OpMapLoot(id, e, file, technique) => MapLinks(v, id, e, file, technique);
      case OpMapEntry(id, e, entry, technique) => MapLinks(v, id, e, entry, technique);
      case OpDeleteMapping(id) => DeleteMappingLinks(v, id);
    }
  }

  lemma LinksKept(v: Vault, op: Op)
    requires LinksOk(v) && Enabled(v, op)
    ensures LinksOk(Apply(v, op).0)
  {
    hide LinksOk, ApplyUser, ApplyEngagement, ApplyGraph, ApplyLoot, ApplyRecord;
    hide UserEnabled, EngagementEnabled, GraphEnabled, LootEnabled, RecordEnabled;
    match op {
      case OfUsers(o) => UserStepsLinks(v, o);
      case OfEngagements(o) => EngagementStepsLinks(v, o);
      case OfGraph(o) => GraphStepsLinks(v, o);
      case OfLoot(o) => LootStepsLinks(v, o);
      case OfRecords(o) => RecordStepsLinks(v, o);
    }
  }
}
