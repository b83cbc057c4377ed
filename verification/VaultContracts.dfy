/** What each request promises its caller: a vault in order, and the effect it was made for. */
module VaultContracts {
  import opened Wrappers
  import opened Text
  import opened Times
  import opened VaultState
  import opened VaultSteps
  import opened VaultMachine
  import opened VaultTheorems
  import opened VaultUndo
  import VaultGraph
  import VaultKillChain
  import VaultLinks
  import VaultGovernance

  // ---------------------------------------------------------------- nodes and edges

  lemma NodeCreated(v: Vault, id: nat, pane: Pane, e: nat, nodeType: Option<string>, name: Option<string>,
                    role: Option<string>, status: Option<string>)
    requires VaultOk(v) && id !in v.nodes
    ensures var r := CreateNode(v, id, pane, e, nodeType, name, role, status);
      VaultOk(r.0) && (r.1 == Done ==> DeleteNode(r.0, pane, e, id) == (v, Done))
  {
    hide VaultOk, CreateNode, DeleteNode;
    GraphStepKeeps(v, OpCreateNode(id, pane, e, nodeType, name, role, status));
    if CreateNode(v, id, pane, e, nodeType, name, role, status).1 == Done {
      DeleteUndoesCreateNode(v, id, pane, e, nodeType, name, role, status);
    }
  }

  /** On each pane the node is found exactly when it was. */
  predicate NodeStaysPut(v: Vault, v': Vault, e: nat, id: nat) {
    forall p :: HasNode(v, p, e, id) <==> HasNode(v', p, e, id)
  }

  lemma NodeUpdated(v: Vault, pane: Pane, e: nat, id: nat, patch: NodePatch)
    requires VaultOk(v)
    ensures var r := UpdateNode(v, pane, e, id, patch);
      VaultOk(r.0) && (r.1 == Done ==> NodeStaysPut(v, r.0, e, id))
  {
    hide VaultOk, PatchFits, Patched, PaneOf;
    VaultGraph.UpdateNodeStays(v, pane, e, id, patch, id);
    assert VaultOk(UpdateNode(v, pane, e, id, patch).0) by {
      hide UpdateNode;
      GraphStepKeeps(v, OpUpdateNode(pane, e, id, patch));
    }
  }

  predicate NodeIsGone(v: Vault, id: nat) {
    && id !in v.nodes
    && (forall i <- v.edges :: v.edges[i].source != id && v.edges[i].target != id)
    && (forall f <- v.findings :: id !in v.findings[f].links.nodes)
  }

  lemma NodeDeleted(v: Vault, pane: Pane, e: nat, id: nat)
    requires VaultOk(v)
    ensures var r := DeleteNode(v, pane, e, id); VaultOk(r.0) && (r.1 == Done ==> NodeIsGone(r.0, id))
  {
    hide VaultOk;
    assert VaultOk(DeleteNode(v, pane, e, id).0) by {
      hide DeleteNode;
      GraphStepKeeps(v, OpDeleteNode(pane, e, id));
    }
  }

  lemma OriginResolved(v: Vault, id: nat, e: nat, origin: string, isIp: bool)
    requires VaultOk(v) && id !in v.nodes && e in v.engagements
    ensures var r := ResolveOrigin(v, id, e, origin, isIp);
      VaultOk(r.0) && (r.1.Some? <==> Strip(origin) != "") && (r.1.Some? ==> NamedIn(r.0, e, r.1.value))
  {
    hide VaultOk, ResolveOrigin;
    ResolveOriginKeeps(v, id, e, origin, isIp);
    OriginIsResolved(v, id, e, origin, isIp);
  }

  lemma EdgeCreated(v: Vault, id: nat, pane: Pane, e: nat, source: Option<nat>, target: Option<nat>)
    requires VaultOk(v) && id !in v.edges
    ensures var r := CreateEdge(v, id, pane, e, source, target);
      VaultOk(r.0) && (r.1 == Done ==> forall p :: id in ListEdges(r.0, p, e) <==> p == pane)
  {
    hide VaultOk, PaneOf;
    assert VaultOk(CreateEdge(v, id, pane, e, source, target).0) by {
      hide CreateEdge;
      GraphStepKeeps(v, OpCreateEdge(id, pane, e, source, target));
    }
  }

  lemma ResolvedEdgeIsListed(v: Vault, id: nat, pane: Pane, e: nat, s: Option<nat>, t: Option<nat>)
    requires EdgeResolves(v, pane, e, s, t)
    ensures var v' := v.(edges := v.edges[id := Edge(e, s.value, t.value)]);
      forall p :: id in ListEdges(v', p, e) <==> p == pane
  {
    hide PaneOf;
  }

  lemma ListedOnItsPane(v: Vault, id: nat, pane: Pane, e: nat)
    requires id in v.edges && v.edges[id].engagement == e && OnPane(v, pane, v.edges[id])
    ensures forall p :: id in ListEdges(v, p, e) <==> p == pane
  {
    hide PaneOf;
  }

  lemma EdgeUpdated(v: Vault, pane: Pane, e: nat, id: nat, source: Option<Option<nat>>, target: Option<Option<nat>>)
    requires VaultOk(v)
    ensures var r := UpdateEdge(v, pane, e, id, source, target);
      VaultOk(r.0) && (r.1 == Done ==> forall p :: id in ListEdges(r.0, p, e) <==> p == pane)
  {
    hide VaultOk, PaneOf, EdgeResolves, OnPane, ListEdges;
    assert VaultOk(UpdateEdge(v, pane, e, id, source, target).0) by {
      hide UpdateEdge;
      GraphStepKeeps(v, OpUpdateEdge(pane, e, id, source, target));
    }
    if id in v.edges && v.edges[id].engagement == e && OnPane(v, pane, v.edges[id]) {
      ListedOnItsPane(v, id, pane, e);
      var s, t := source.GetOr(Some(v.edges[id].source)), target.GetOr(Some(v.edges[id].target));
      if EdgeResolves(v, pane, e, s, t) {
        ResolvedEdgeIsListed(v, id, pane, e, s, t);
      }
    }
  }

  lemma EdgeDeleted(v: Vault, e: nat, id: nat)
    requires VaultOk(v)
    ensures var r := DeleteEdge(v, e, id);
      VaultOk(r.0) && (r.1 == Done ==> forall p, f :: ListEdges(r.0, p, f) == ListEdges(v, p, f) - {id})
  {
    hide VaultOk, PaneOf;
    assert VaultOk(DeleteEdge(v, e, id).0) by {
      hide DeleteEdge;
      GraphStepKeeps(v, OpDeleteEdge(e, id));
    }
  }

  // ---------------------------------------------------------------- loot, credentials, IOCs

  /** The file is there, and the host it names, if any, is a node of the engagement. */
  predicate FileIsOnRecord(v: Vault, e: nat, id: nat) {
    id in v.loot && v.loot[id].engagement == e && (v.loot[id].host.Some? ==> NamedIn(v, e, v.loot[id].host.value))
  }

  lemma LootUploaded(v: Vault, id: nat, nodeId: nat, e: nat, uploaded: bool, knownCategory: bool, host: string, isIp: bool)
    requires VaultOk(v) && id !in v.loot && nodeId !in v.nodes
    ensures var r := UploadLoot(v, id, nodeId, e, uploaded, knownCategory, host, isIp);
      VaultOk(r.0) && (r.1 == Done ==> FileIsOnRecord(r.0, e, id))
  {
    hide VaultOk, ResolveOrigin, NamedIn;
    assert VaultOk(UploadLoot(v, id, nodeId, e, uploaded, knownCategory, host, isIp).0) by {
      hide UploadLoot;
      LootStepKeeps(v, OpUploadLoot(id, nodeId, e, uploaded, knownCategory, host, isIp));
    }
    OriginIsResolved(v, nodeId, e, host, isIp);
    NamedByNodes(ResolveOrigin(v, nodeId, e, host, isIp).0,
                 UploadLoot(v, id, nodeId, e, uploaded, knownCategory, host, isIp).0, e);
  }

  lemma NamedByNodes(v: Vault, w: Vault, e: nat)
    ensures v.nodes == w.nodes ==> forall name :: NamedIn(v, e, name) == NamedIn(w, e, name)
  {
    hide Lower;
    if v.nodes == w.nodes {
      forall name ensures NamedIn(v, e, name) == NamedIn(w, e, name) {
      }
    }
  }

  lemma LootHasEngagement(v: Vault, id: nat)
    requires VaultOk(v) && id in v.loot
    ensures v.loot[id].engagement in v.engagements
  {
    hide GraphOk, KillChainOk, UsersOk, RequestsOk;
  }

  lemma LootUpdated(v: Vault, nodeId: nat, e: nat, id: nat, knownCategory: bool, host: Option<string>, isIp: bool)
    requires VaultOk(v) && nodeId !in v.nodes
    ensures var r := UpdateLoot(v, nodeId, e, id, knownCategory, host, isIp);
      VaultOk(r.0) && (r.1 == Done && host.Some? ==> FileIsOnRecord(r.0, e, id))
  {
    hide VaultOk, ResolveOrigin, NamedIn;
    assert VaultOk(UpdateLoot(v, nodeId, e, id, knownCategory, host, isIp).0) by {
      hide UpdateLoot;
      LootStepKeeps(v, OpUpdateLoot(nodeId, e, id, knownCategory, host, isIp));
    }
    if host.Some? {
      OriginIsResolved(v, nodeId, e, host.value, isIp);
      NamedByNodes(ResolveOrigin(v, nodeId, e, host.value, isIp).0,
                   UpdateLoot(v, nodeId, e, id, knownCategory, host, isIp).0, e);
    }
  }

  predicate LootIsGone(v: Vault, id: nat) {
    id !in v.loot && !LootIsLinked(v, id) && forall i <- v.mappings :: v.mappings[i].lootFile != Some(id)
  }

  lemma LootDeleted(v: Vault, e: nat, id: nat)
    requires VaultOk(v)
    ensures var r := DeleteLoot(v, e, id); VaultOk(r.0) && (r.1 == Done ==> LootIsGone(r.0, id))
  {
    hide VaultOk;
    assert VaultOk(DeleteLoot(v, e, id).0) by {
      hide DeleteLoot;
      LootStepKeeps(v, OpDeleteLoot(e, id));
    }
    LinkedByTables(v, DeleteLoot(v, e, id).0, id);
  }

  lemma LinkedByTables(v: Vault, w: Vault, id: nat)
    ensures v.findings == w.findings && v.entries == w.entries ==> LootIsLinked(v, id) == LootIsLinked(w, id)
  {
  }

  lemma CredentialCreated(v: Vault, id: nat, e: nat)
    requires VaultOk(v) && id !in v.credentials
    ensures var r := CreateCredential(v, id, e);
      VaultOk(r.0) && (r.1 == Done ==> DeleteCredential(r.0, e, id) == (v, Done))
  {
    hide VaultOk, CreateCredential, DeleteCredential;
    LootStepKeeps(v, OpCreateCredential(id, e));
    if CreateCredential(v, id, e).1 == Done {
      DeleteUndoesCreateCredential(v, id, e);
    }
  }

  predicate CredentialIsGone(v: Vault, id: nat) {
    id !in v.credentials && forall f <- v.findings :: id !in v.findings[f].links.credentials
  }

  lemma CredentialDeleted(v: Vault, e: nat, id: nat)
    requires VaultOk(v)
    ensures var r := DeleteCredential(v, e, id); VaultOk(r.0) && (r.1 == Done ==> CredentialIsGone(r.0, id))
  {
    hide VaultOk;
    assert VaultOk(DeleteCredential(v, e, id).0) by {
      hide DeleteCredential;
      LootStepKeeps(v, OpDeleteCredential(e, id));
    }
  }

  lemma IocCreated(v: Vault, id: nat, e: nat)
    requires VaultOk(v) && id !in v.iocs
    ensures var r := CreateIoc(v, id, e); VaultOk(r.0) && (r.1 == Done ==> DeleteIoc(r.0, e, id) == (v, Done))
  {
    hide VaultOk, CreateIoc, DeleteIoc;
    LootStepKeeps(v, OpCreateIoc(id, e));
    if CreateIoc(v, id, e).1 == Done {
      DeleteUndoesCreateIoc(v, id, e);
    }
  }

  predicate IocIsGone(v: Vault, id: nat) {
    id !in v.iocs && forall f <- v.findings :: id !in v.findings[f].links.iocs
  }

  lemma IocDeleted(v: Vault, e: nat, id: nat)
    requires VaultOk(v)
    ensures var r := DeleteIoc(v, e, id); VaultOk(r.0) && (r.1 == Done ==> IocIsGone(r.0, id))
  {
    hide VaultOk;
    assert VaultOk(DeleteIoc(v, e, id).0) by {
      hide DeleteIoc;
      LootStepKeeps(v, OpDeleteIoc(e, id));
    }
  }

  // ---------------------------------------------------------------- engagements

  /** A new engagement has no entries, so its model can still be changed. */
  lemma EngagementCreated(v: Vault, id: nat, name: Option<string>, client: Option<string>, model: Option<string>)
    requires VaultOk(v) && id !in v.engagements
    ensures var r := CreateEngagement(v, id, name, client, model);
      VaultOk(r.0) && (r.1 == Done ==> id in r.0.engagements && !HasEntries(r.0, id))
  {
    NoEntriesWithout(v, id);
    hide VaultOk, Strip;
    assert VaultOk(CreateEngagement(v, id, name, client, model).0) by {
      hide CreateEngagement;
      EngagementStepKeeps(v, OpCreateEngagement(id, name, client, model));
    }
  }

  lemma NoEntriesWithout(v: Vault, e: nat)
    requires VaultOk(v) && e !in v.engagements
    ensures !HasEntries(v, e)
  {
    hide GraphOk, LinksOk, UsersOk, RequestsOk, StagesFor;
    forall id | id in v.entries ensures v.entries[id].engagement != e {
      assert EntryOk(v.engagements, v.entries[id]);
    }
  }

  /** The model of an engagement that has entries is the one it had. */
  predicate ModelIsKept(v: Vault, v': Vault, e: nat) {
    HasEntries(v, e) && e in v.engagements ==> e in v'.engagements && v'.engagements[e].model == v.engagements[e].model
  }

  lemma EngagementUpdated(v: Vault, e: nat, name: Field, client: Field, model: Field)
    requires VaultOk(v)
    ensures var r := UpdateEngagement(v, e, name, client, model); VaultOk(r.0) && ModelIsKept(v, r.0, e)
  {
    hide VaultOk, HasEntries, StrOrNone;
    assert VaultOk(UpdateEngagement(v, e, name, client, model).0) by {
      hide UpdateEngagement;
      EngagementStepKeeps(v, OpUpdateEngagement(e, name, client, model));
    }
  }

  lemma EngagementEdited(v: Vault, e: nat, name: string, client: string, model: Option<string>)
    requires VaultOk(v)
    ensures var r := EditEngagement(v, e, name, client, model); VaultOk(r.0) && ModelIsKept(v, r.0, e)
  {
    hide VaultOk, HasEntries, Strip;
    assert VaultOk(EditEngagement(v, e, name, client, model).0) by {
      hide EditEngagement;
      EngagementStepKeeps(v, OpEditEngagement(e, name, client, model));
    }
  }

  lemma DeletionRequested(v: Vault, actor: nat, e: nat)
    requires VaultOk(v)
    ensures var r := RequestDeletion(v, actor, e);
      VaultOk(r.0) && (r.1 == Done ==> CancelDeletion(r.0, actor, e) == (v, Done))
  {
    assert VaultOk(RequestDeletion(v, actor, e).0) by {
      hide VaultOk, RequestDeletion;
      EngagementStepKeeps(v, OpRequestDeletion(actor, e));
    }
    hide VaultOk, CancelDeletion;
    if RequestDeletion(v, actor, e).1 == Done {
      CancelUndoesRequest(v, actor, actor, e);
    }
  }

  lemma DeletionCancelled(v: Vault, actor: nat, e: nat)
    requires VaultOk(v)
    ensures var r := CancelDeletion(v, actor, e); VaultOk(r.0) && (r.1 == Done ==> r.0.requests == v.requests - {e})
  {
    hide VaultOk;
    assert VaultOk(CancelDeletion(v, actor, e).0) by {
      hide CancelDeletion;
      EngagementStepKeeps(v, OpCancelDeletion(actor, e));
    }
  }

  /** Nothing of the engagement is left in any table. */
  predicate EngagementIsGone(v: Vault, e: nat) {
    && e !in v.engagements && e !in v.requests
    && LootOf(v, e) == {} && NodesOf(v, e) == {} && CredentialsOf(v, e) == {} && IocsOf(v, e) == {} && EntriesOf(v, e) == {}
  }

  lemma DeletionApproved(v: Vault, actor: nat, e: nat, elsewhere: bool)
    requires VaultOk(v)
    ensures var r := ApproveDeletion(v, actor, e, elsewhere); VaultOk(r.0) && (r.1 == Done ==> EngagementIsGone(r.0, e))
  {
    hide VaultOk, IsActive, WithoutEngagement;
    assert VaultOk(ApproveDeletion(v, actor, e, elsewhere).0) by {
      hide ApproveDeletion;
      EngagementStepKeeps(v, OpApproveDeletion(actor, e, elsewhere));
    }
    NothingLeft(v, e);
  }

  lemma NothingLeft(v: Vault, e: nat)
    ensures EngagementIsGone(WithoutEngagement(v, e), e)
  {
    hide TargetIn;
  }

  // ---------------------------------------------------------------- entries, findings, mappings

  lemma EntryCreated(v: Vault, id: nat, e: nat, stage: Option<string>, title: Option<string>, startedAt: Option<Time>,
                     endedAt: Option<Time>, dialect: Dialect, createdAt: int, lootIds: Option<seq<nat>>)
    requires VaultOk(v) && id !in v.entries
    ensures var r := CreateEntry(v, id, e, stage, title, startedAt, endedAt, dialect, createdAt, lootIds);
      VaultOk(r.0) && (r.1 == Done ==> DeleteEntry(r.0, e, id) == (v, Done))
  {
    hide VaultOk, CreateEntry, DeleteEntry;
    RecordStepKeeps(v, OpCreateEntry(id, e, stage, title, startedAt, endedAt, dialect, createdAt, lootIds));
    if CreateEntry(v, id, e, stage, title, startedAt, endedAt, dialect, createdAt, lootIds).1 == Done {
      DeleteUndoesCreateEntry(v, id, e, stage, title, startedAt, endedAt, dialect, createdAt, lootIds);
    }
  }

  lemma EntryUpdated(v: Vault, e: nat, id: nat, patch: EntryPatch, dialect: Dialect)
    requires VaultOk(v)
    ensures VaultOk(UpdateEntry(v, e, id, patch, dialect).0)
    ensures id in v.entries ==> v.entries[id].engagement in v.engagements
  {
    hide VaultOk, UpdateEntry;
    RecordStepKeeps(v, OpUpdateEntry(e, id, patch, dialect));
    if id in v.entries {
      EntryHasEngagement(v, id);
    }
  }

  lemma EntryHasEngagement(v: Vault, id: nat)
    requires VaultOk(v) && id in v.entries
    ensures v.entries[id].engagement in v.engagements
  {
    hide GraphOk, LinksOk, UsersOk, RequestsOk, StagesFor;
    assert EntryOk(v.engagements, v.entries[id]);
  }

  predicate EntryIsGone(v: Vault, id: nat) {
    && id !in v.entries
    && (forall i <- v.mappings :: v.mappings[i].entry != Some(id))
    && (forall f <- v.findings :: id !in v.findings[f].links.entries)
  }

  lemma EntryDeleted(v: Vault, e: nat, id: nat)
    requires VaultOk(v)
    ensures var r := DeleteEntry(v, e, id); VaultOk(r.0) && (r.1 == Done ==> EntryIsGone(r.0, id))
  {
    hide VaultOk;
    assert VaultOk(DeleteEntry(v, e, id).0) by {
      hide DeleteEntry;
      RecordStepKeeps(v, OpDeleteEntry(e, id));
    }
  }

  lemma FindingCreated(v: Vault, id: nat, e: nat, title: Option<string>, severity: Option<string>, ids: LinkIds)
    requires VaultOk(v) && id !in v.findings
    ensures var r := CreateFinding(v, id, e, title, severity, ids);
      VaultOk(r.0) && (r.1 == Done ==> DeleteFinding(r.0, e, id) == (v, Done))
  {
    hide VaultOk, CreateFinding, DeleteFinding;
    RecordStepKeeps(v, OpCreateFinding(id, e, title, severity, ids));
    if CreateFinding(v, id, e, title, severity, ids).1 == Done {
      DeleteUndoesCreateFinding(v, id, e, title, severity, ids);
    }
  }

  lemma FindingUpdated(v: Vault, e: nat, id: nat, title: Field, severity: Field, ids: Option<LinkIds>)
    requires VaultOk(v)
    ensures var r := UpdateFinding(v, e, id, title, severity, ids);
      VaultOk(r.0)
      && (r.1 == Done && ids.None? ==>
            id in v.findings && id in r.0.findings && r.0.findings[id].links == v.findings[id].links)
  {
    hide VaultOk, Correlated, StrOrNone;
    assert VaultOk(UpdateFinding(v, e, id, title, severity, ids).0) by {
      hide UpdateFinding;
      RecordStepKeeps(v, OpUpdateFinding(e, id, title, severity, ids));
    }
  }

  /** The finding is gone, and with it at most some reasons to keep a loot file. */
  predicate FindingIsGone(v: Vault, v': Vault, id: nat) {
    id !in v'.findings && forall f <- v.loot :: LootIsLinked(v', f) ==> LootIsLinked(v, f)
  }

  lemma FindingDeleted(v: Vault, e: nat, id: nat)
    requires VaultOk(v)
    ensures var r := DeleteFinding(v, e, id); VaultOk(r.0) && (r.1 == Done ==> FindingIsGone(v, r.0, id))
  {
    hide VaultOk, FindingIsGone;
    assert VaultOk(DeleteFinding(v, e, id).0) by {
      hide DeleteFinding;
      RecordStepKeeps(v, OpDeleteFinding(e, id));
    }
    FewerReasons(v, id);
  }

  lemma FewerReasons(v: Vault, id: nat)
    ensures FindingIsGone(v, v.(findings := v.findings - {id}), id)
  {
    var v' := v.(findings := v.findings - {id});
    forall f | f in v.loot && LootIsLinked(v', f) ensures LootIsLinked(v, f) {
      if g :| g in v'.findings && f in v'.findings[g].links.loot {
        assert f in v.findings[g].links.loot;
      } else {
        assert exists k <- v.entries :: f in v.entries[k].loot;
      }
    }
  }

  lemma LootMapped(v: Vault, id: nat, e: nat, file: nat, technique: Option<nat>)
    requires VaultOk(v) && id !in v.mappings
    ensures var r := MapLoot(v, id, e, file, technique);
      VaultOk(r.0) && (r.1 == Done ==> DeleteMapping(r.0, id) == (v, Done))
  {
    hide VaultOk, MapLoot, DeleteMapping;
    RecordStepKeeps(v, OpMapLoot(id, e, file, technique));
    DeleteUndoesMapping(v, id, e, file, technique);
  }

  lemma EntryMapped(v: Vault, id: nat, e: nat, entry: nat, technique: Option<nat>)
    requires VaultOk(v) && id !in v.mappings
    ensures var r := MapEntry(v, id, e, entry, technique);
      VaultOk(r.0) && (r.1 == Done ==> DeleteMapping(r.0, id) == (v, Done))
  {
    hide VaultOk, MapEntry, DeleteMapping;
    RecordStepKeeps(v, OpMapEntry(id, e, entry, technique));
    DeleteUndoesMapping(v, id, e, entry, technique);
  }

  lemma MappingDeleted(v: Vault, id: nat)
    requires VaultOk(v)
    ensures var r := DeleteMapping(v, id); VaultOk(r.0) && (r.1 == Done <==> id in v.mappings) && id !in r.0.mappings
  {
    hide VaultOk;
    assert VaultOk(DeleteMapping(v, id).0) by {
      hide DeleteMapping;
      RecordStepKeeps(v, OpDeleteMapping(id));
    }
  }

  /** A target found in the engagement is one a mapping of the engagement may have. */
  lemma TargetsAreInOrder(v: Vault, e: nat, technique: nat, target: nat)
    requires VaultOk(v)
    ensures target in v.loot && v.loot[target].engagement == e ==> MappingOk(v, Mapping(e, technique, Some(target), None))
    ensures target in v.entries && v.entries[target].engagement == e ==> MappingOk(v, Mapping(e, technique, None, Some(target)))
  {
    hide VaultOk;
    if target in v.loot {
      LootHasEngagement(v, target);
    }
    if target in v.entries {
      EntryHasEngagement(v, target);
    }
  }

  /** One more mapping whose target is in order. */
  lemma MappingAdded(v: Vault, id: nat, m: Mapping)
    requires VaultOk(v) && id !in v.mappings && MappingOk(v, m)
    ensures VaultOk(v.(mappings := v.mappings[id := m]))
  {
    hide GraphOk, KillChainOk, LinksOk, UsersOk, MappingOk;
    var v' := v.(mappings := v.mappings[id := m]);
    VaultGraph.GraphFrame(v, v');
    VaultKillChain.KillChainFrame(v, v');
    VaultLinks.PutMapping(v, id, m);
    VaultGovernance.UsersFrame(v, v');
  }

  // ---------------------------------------------------------------- users

  lemma VaultSetUp(v: Vault, id: nat, username: string, password: string, confirm: string, knownMode: bool,
                   engagement: Option<(nat, string)>, model: Option<string>)
    requires VaultOk(v) && (engagement.Some? ==> engagement.value.0 !in v.engagements)
    ensures var r := SetUp(v, id, username, password, confirm, knownMode, engagement, model);
      VaultOk(r.0) && (r.1 == Done ==> v.users == map[] && ActiveAdmin(r.0, id))
  {
    hide VaultOk, Strip, GoodLogin;
    assert VaultOk(SetUp(v, id, username, password, confirm, knownMode, engagement, model).0) by {
      hide SetUp;
      UserStepKeeps(v, OpSetUp(id, username, password, confirm, knownMode, engagement, model));
    }
  }

  lemma UserCreated(v: Vault, id: nat, actor: nat, username: string, password: string, role: string)
    requires VaultOk(v) && id !in v.users
    ensures var r := CreateUser(v, id, actor, username, password, role);
      VaultOk(r.0)
      && (r.1 == Done ==>
            IsActive(r.0, id) && !UsernameTaken(v, Strip(username)) && UsernameTaken(r.0, Strip(username)))
  {
    hide VaultOk, Strip, ActiveAdmin;
    assert VaultOk(CreateUser(v, id, actor, username, password, role).0) by {
      hide CreateUser;
      UserStepKeeps(v, OpCreateUser(id, actor, username, password, role));
    }
    var r := CreateUser(v, id, actor, username, password, role);
    if r.1 == Done {
      assert r.0.users[id].username == Strip(username);
    }
  }

  /** Someone who is an active admin is left. */
  predicate InCharge(v: Vault) {
    exists u <- v.users :: ActiveAdmin(v, u)
  }

  lemma SomeoneLeft(v: Vault)
    requires VaultOk(v) && v.users != map[]
    ensures InCharge(v)
  {
    hide GraphOk, KillChainOk, LinksOk, RequestsOk, ActiveAdmin;
    assert UsersOk(v);
  }

  lemma UserEdited(v: Vault, actor: nat, user: nat, role: Option<string>, active: bool)
    requires VaultOk(v)
    ensures var r := EditUser(v, actor, user, role, active); VaultOk(r.0) && (r.1 == Done ==> InCharge(r.0))
  {
    hide VaultOk, InCharge;
    assert VaultOk(EditUser(v, actor, user, role, active).0) by {
      hide EditUser;
      UserStepKeeps(v, OpEditUser(actor, user, role, active));
    }
    var r := EditUser(v, actor, user, role, active);
    if r.1 == Done {
      assert user in r.0.users;
      SomeoneLeft(r.0);
    }
  }

  lemma UserDeactivated(v: Vault, actor: nat, user: nat)
    requires VaultOk(v)
    ensures var r := DeactivateUser(v, actor, user);
      VaultOk(r.0) && (r.1 == Done ==> user in r.0.users && !r.0.users[user].active && InCharge(r.0))
  {
    hide VaultOk, InCharge;
    assert VaultOk(DeactivateUser(v, actor, user).0) by {
      hide DeactivateUser;
      UserStepKeeps(v, OpDeactivateUser(actor, user));
    }
    var r := DeactivateUser(v, actor, user);
    if r.1 == Done {
      assert user in r.0.users;
      SomeoneLeft(r.0);
    }
  }
}
