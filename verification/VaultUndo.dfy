/** What requests mean to each other: which one undoes which, and what a first one makes a second one do. */
module VaultUndo {
  import opened Wrappers
  import opened Text
  import opened Times
  import opened VaultState
  import opened VaultSteps
  import opened VaultMachine
  import opened VaultTheorems
  import VaultGraph

  // ---------------------------------------------------------------- delete undoes create

  lemma PutThenRemove<T>(rows: map<nat, T>, id: nat, row: T)
    requires id !in rows
    ensures rows[id := row] - {id} == rows
  {
  }

  lemma NothingNamesNode(v: Vault, id: nat)
    requires VaultOk(v) && id !in v.nodes
    ensures forall i <- v.edges :: v.edges[i].source != id && v.edges[i].target != id
    ensures forall f <- v.findings :: id !in v.findings[f].links.nodes
  {
    hide NodeOk, KillChainOk, UsersOk, RequestsOk;
    forall i | i in v.edges ensures v.edges[i].source != id && v.edges[i].target != id {
      assert EdgeOk(v.nodes, v.edges[i]);
    }
    forall f | f in v.findings ensures id !in v.findings[f].links.nodes {
      assert FindingOk(v, v.findings[f]);
    }
  }

  /** Deleting a node right after it was created leaves the vault exactly as it was, findings and edges included. */
  lemma DeleteUndoesCreateNode(v: Vault, id: nat, pane: Pane, e: nat, nodeType: Option<string>, name: Option<string>,
                               role: Option<string>, status: Option<string>)
    requires VaultOk(v) && id !in v.nodes && CreateNode(v, id, pane, e, nodeType, name, role, status).1 == Done
    ensures var v' := CreateNode(v, id, pane, e, nodeType, name, role, status).0;
      HasNode(v', pane, e, id) && DeleteNode(v', pane, e, id) == (v, Done)
  {
    NothingNamesNode(v, id);
    NewNodeOnPane(v, id, pane, e, nodeType, name, role, status);
    hide VaultOk, CreateNode, HasNode;
    var v' := CreateNode(v, id, pane, e, nodeType, name, role, status).0;
    WithoutUnnamedNode(v, v', id);
  }

  lemma WithoutUnnamedNode(v: Vault, v': Vault, id: nat)
    requires v' == v.(nodes := v'.nodes) && id !in v.nodes && v'.nodes - {id} == v.nodes
    requires forall i <- v.edges :: v.edges[i].source != id && v.edges[i].target != id
    requires forall f <- v.findings :: id !in v.findings[f].links.nodes
    ensures WithoutNode(v', id) == v
  {
    var w := WithoutNode(v', id);
    assert w.edges == v.edges;
    forall f | f in v.findings ensures w.findings[f] == v.findings[f] {
      assert v.findings[f].links.nodes - {id} == v.findings[f].links.nodes;
    }
    assert w.findings == v.findings;
  }

  lemma NewNode(v: Vault, id: nat, pane: Pane, e: nat, nodeType: Option<string>, name: Option<string>,
                role: Option<string>, status: Option<string>)
    requires id !in v.nodes && CreateNode(v, id, pane, e, nodeType, name, role, status).1 == Done
    ensures var n := VaultSteps.NewNode(e, nodeType, name, role, status);
      CreateNode(v, id, pane, e, nodeType, name, role, status).0 == v.(nodes := v.nodes[id := n]) && PaneOf(n.role) == pane
  {
    hide NodeFits, VaultSteps.NewNode, NodeOk, PaneOf;
    VaultGraph.NewNodeOk(v.engagements.Keys, pane, e, nodeType, name, role, status);
  }

  /** A new node is found on the pane it was created on, and on no other. */
  lemma NewNodeOnPane(v: Vault, id: nat, pane: Pane, e: nat, nodeType: Option<string>, name: Option<string>,
                      role: Option<string>, status: Option<string>)
    requires id !in v.nodes && CreateNode(v, id, pane, e, nodeType, name, role, status).1 == Done
    ensures var v' := CreateNode(v, id, pane, e, nodeType, name, role, status).0;
      && v' == v.(nodes := v'.nodes) && v'.nodes - {id} == v.nodes && id in v'.nodes && v'.nodes[id].engagement == e
      && forall p :: HasNode(v', p, e, id) <==> p == pane
  {
    hide CreateNode, VaultSteps.NewNode, NodeFits, PaneOf;
    NewNode(v, id, pane, e, nodeType, name, role, status);
    PutThenRemove(v.nodes, id, VaultSteps.NewNode(e, nodeType, name, role, status));
  }

  lemma EdgeGoes(v: Vault, e: nat, id: nat, edge: Edge)
    requires id !in v.edges && edge.engagement == e
    ensures DeleteEdge(v.(edges := v.edges[id := edge]), e, id) == (v, Done)
  {
    PutThenRemove(v.edges, id, edge);
  }

  /** Likewise for an edge. */
  lemma DeleteUndoesCreateEdge(v: Vault, id: nat, pane: Pane, e: nat, source: Option<nat>, target: Option<nat>)
    requires id !in v.edges && CreateEdge(v, id, pane, e, source, target).1 == Done
    ensures DeleteEdge(CreateEdge(v, id, pane, e, source, target).0, e, id) == (v, Done)
  {
    hide EdgeResolves, DeleteEdge;
    assert source.Some? && target.Some? by { NewEdge(v, id, pane, e, source, target); }
    var edge := Edge(e, source.value, target.value);
    assert CreateEdge(v, id, pane, e, source, target).0 == v.(edges := v.edges[id := edge]);
    EdgeGoes(v, e, id, edge);
  }

  lemma NewEdge(v: Vault, id: nat, pane: Pane, e: nat, source: Option<nat>, target: Option<nat>)
    requires id !in v.edges && CreateEdge(v, id, pane, e, source, target).1 == Done
    ensures source.Some? && target.Some?
  {
    hide HasNode;
  }

  lemma NothingNamesEntry(v: Vault, id: nat)
    requires VaultOk(v) && id !in v.entries
    ensures forall i <- v.mappings :: v.mappings[i].entry != Some(id)
    ensures forall f <- v.findings :: id !in v.findings[f].links.entries
  {
    hide GraphOk, KillChainOk, UsersOk, RequestsOk;
    forall i | i in v.mappings ensures v.mappings[i].entry != Some(id) {
      assert MappingOk(v, v.mappings[i]);
    }
    forall f | f in v.findings ensures id !in v.findings[f].links.entries {
      assert FindingOk(v, v.findings[f]);
    }
  }

  lemma WithoutUnnamedEntry(v: Vault, v': Vault, id: nat)
    requires v' == v.(entries := v'.entries) && id !in v.entries && v'.entries - {id} == v.entries
    requires forall i <- v.mappings :: v.mappings[i].entry != Some(id)
    requires forall f <- v.findings :: id !in v.findings[f].links.entries
    ensures WithoutEntry(v', id) == v
  {
    var w := WithoutEntry(v', id);
    assert w.mappings == v.mappings;
    forall f | f in v.findings ensures w.findings[f] == v.findings[f] {
      assert v.findings[f].links.entries - {id} == v.findings[f].links.entries;
    }
    assert w.findings == v.findings;
  }

  lemma NewEntry(v: Vault, id: nat, e: nat, stage: Option<string>, title: Option<string>, startedAt: Option<Time>,
                 endedAt: Option<Time>, dialect: Dialect, createdAt: int, lootIds: Option<seq<nat>>)
    requires id !in v.entries
    requires CreateEntry(v, id, e, stage, title, startedAt, endedAt, dialect, createdAt, lootIds).1 == Done
    ensures var v' := CreateEntry(v, id, e, stage, title, startedAt, endedAt, dialect, createdAt, lootIds).0;
      && v' == v.(entries := v'.entries) && v'.entries - {id} == v.entries
      && id in v'.entries && v'.entries[id].engagement == e
  {
    hide EntryCheck, Strip, Linked, LootOf, CheckRange, StoredTime, StagesFor;
    var entry := Entry(e, stage.value, Strip(title.value), StoredTime(dialect, startedAt), StoredTime(dialect, endedAt),
                       createdAt, Linked(lootIds.GetOr([]), LootOf(v, e)));
    PutThenRemove(v.entries, id, entry);
  }

  /** Likewise for a kill chain entry, mappings and finding links included. */
  lemma DeleteUndoesCreateEntry(v: Vault, id: nat, e: nat, stage: Option<string>, title: Option<string>,
                                startedAt: Option<Time>, endedAt: Option<Time>, dialect: Dialect, createdAt: int,
                                lootIds: Option<seq<nat>>)
    requires VaultOk(v) && id !in v.entries
    requires CreateEntry(v, id, e, stage, title, startedAt, endedAt, dialect, createdAt, lootIds).1 == Done
    ensures DeleteEntry(CreateEntry(v, id, e, stage, title, startedAt, endedAt, dialect, createdAt, lootIds).0, e, id)
         == (v, Done)
  {
    NothingNamesEntry(v, id);
    NewEntry(v, id, e, stage, title, startedAt, endedAt, dialect, createdAt, lootIds);
    hide VaultOk, CreateEntry, WithoutEntry;
    WithoutUnnamedEntry(v, CreateEntry(v, id, e, stage, title, startedAt, endedAt, dialect, createdAt, lootIds).0, id);
  }

  lemma FindingGoes(v: Vault, e: nat, id: nat, f: Finding)
    requires id !in v.findings && f.engagement == e
    ensures DeleteFinding(v.(findings := v.findings[id := f]), e, id) == (v, Done)
  {
    PutThenRemove(v.findings, id, f);
  }

  /** Likewise for a finding. */
  lemma DeleteUndoesCreateFinding(v: Vault, id: nat, e: nat, title: Option<string>, severity: Option<string>, ids: LinkIds)
    requires id !in v.findings && CreateFinding(v, id, e, title, severity, ids).1 == Done
    ensures DeleteFinding(CreateFinding(v, id, e, title, severity, ids).0, e, id) == (v, Done)
  {
    hide Strip, Correlated, DeleteFinding;
    var f := Finding(e, Strip(title.value), severity.value, Correlated(v, e, ids));
    assert CreateFinding(v, id, e, title, severity, ids).0 == v.(findings := v.findings[id := f]);
    FindingGoes(v, e, id, f);
  }

  lemma MappingGoes(v: Vault, id: nat, m: Mapping)
    requires id !in v.mappings
    ensures DeleteMapping(v.(mappings := v.mappings[id := m]), id) == (v, Done)
  {
    PutThenRemove(v.mappings, id, m);
  }

  /** Likewise for a technique mapping to either kind of target. */
  lemma DeleteUndoesMapping(v: Vault, id: nat, e: nat, target: nat, technique: Option<nat>)
    requires id !in v.mappings
    ensures MapLoot(v, id, e, target, technique).1 == Done ==>
              DeleteMapping(MapLoot(v, id, e, target, technique).0, id) == (v, Done)
    ensures MapEntry(v, id, e, target, technique).1 == Done ==>
              DeleteMapping(MapEntry(v, id, e, target, technique).0, id) == (v, Done)
  {
    hide DeleteMapping;
    if technique.Some? {
      MappingGoes(v, id, Mapping(e, technique.value, Some(target), None));
      MappingGoes(v, id, Mapping(e, technique.value, None, Some(target)));
    }
  }

  lemma NothingNamesOwned(v: Vault, id: nat)
    requires VaultOk(v)
    ensures id !in v.credentials ==> forall f <- v.findings :: id !in v.findings[f].links.credentials
    ensures id !in v.iocs ==> forall f <- v.findings :: id !in v.findings[f].links.iocs
  {
    hide GraphOk, KillChainOk, UsersOk, RequestsOk;
    forall f | f in v.findings
      ensures id !in v.credentials ==> id !in v.findings[f].links.credentials
      ensures id !in v.iocs ==> id !in v.findings[f].links.iocs
    {
      assert FindingOk(v, v.findings[f]);
    }
  }

  lemma UnlinkedCredentialGoes(v: Vault, v': Vault, e: nat, id: nat)
    requires v' == v.(credentials := v'.credentials) && id in v'.credentials && v'.credentials[id] == e
    requires v'.credentials - {id} == v.credentials && forall f <- v.findings :: id !in v.findings[f].links.credentials
    ensures DeleteCredential(v', e, id) == (v, Done)
  {
    var w := DeleteCredential(v', e, id).0;
    forall f | f in v.findings ensures w.findings[f] == v.findings[f] {
      assert v.findings[f].links.credentials - {id} == v.findings[f].links.credentials;
    }
    assert w.findings == v.findings;
  }

  lemma UnlinkedIocGoes(v: Vault, v': Vault, e: nat, id: nat)
    requires v' == v.(iocs := v'.iocs) && id in v'.iocs && v'.iocs[id] == e
    requires v'.iocs - {id} == v.iocs && forall f <- v.findings :: id !in v.findings[f].links.iocs
    ensures DeleteIoc(v', e, id) == (v, Done)
  {
    var w := DeleteIoc(v', e, id).0;
    forall f | f in v.findings ensures w.findings[f] == v.findings[f] {
      assert v.findings[f].links.iocs - {id} == v.findings[f].links.iocs;
    }
    assert w.findings == v.findings;
  }

  /** Likewise for a credential, finding links included. */
  lemma DeleteUndoesCreateCredential(v: Vault, id: nat, e: nat)
    requires VaultOk(v) && id !in v.credentials && CreateCredential(v, id, e).1 == Done
    ensures DeleteCredential(CreateCredential(v, id, e).0, e, id) == (v, Done)
  {
    NothingNamesOwned(v, id);
    hide VaultOk, DeleteCredential;
    PutThenRemove(v.credentials, id, e);
    UnlinkedCredentialGoes(v, CreateCredential(v, id, e).0, e, id);
  }

  /** Likewise for an IOC, finding links included. */
  lemma DeleteUndoesCreateIoc(v: Vault, id: nat, e: nat)
    requires VaultOk(v) && id !in v.iocs && CreateIoc(v, id, e).1 == Done
    ensures DeleteIoc(CreateIoc(v, id, e).0, e, id) == (v, Done)
  {
    NothingNamesOwned(v, id);
    hide VaultOk, DeleteIoc;
    PutThenRemove(v.iocs, id, e);
    UnlinkedIocGoes(v, CreateIoc(v, id, e).0, e, id);
  }

  lemma NothingNamesLoot(v: Vault, id: nat)
    requires VaultOk(v) && id !in v.loot
    ensures !LootIsLinked(v, id)
    ensures forall i <- v.mappings :: v.mappings[i].lootFile != Some(id)
  {
    hide GraphOk, KillChainOk, UsersOk, RequestsOk;
    forall f | f in v.findings ensures id !in v.findings[f].links.loot {
      assert FindingOk(v, v.findings[f]);
    }
    forall k | k in v.entries ensures id !in v.entries[k].loot {
      assert EntryLinksOk(v, v.entries[k]);
    }
    forall i | i in v.mappings ensures v.mappings[i].lootFile != Some(id) {
      assert MappingOk(v, v.mappings[i]);
    }
  }

  /** Deleting an upload leaves nothing of it but the host it was found on, which the graph has learnt. */
  lemma DeleteUndoesUpload(v: Vault, id: nat, nodeId: nat, e: nat, uploaded: bool, knownCategory: bool, host: string,
                           isIp: bool)
    requires VaultOk(v) && id !in v.loot && nodeId !in v.nodes
    requires UploadLoot(v, id, nodeId, e, uploaded, knownCategory, host, isIp).1 == Done
    ensures var v' := UploadLoot(v, id, nodeId, e, uploaded, knownCategory, host, isIp).0;
      DeleteLoot(v', e, id) == (v.(nodes := ResolveOrigin(v, nodeId, e, host, isIp).0.nodes), Done)
  {
    NothingNamesLoot(v, id);
    NewUpload(v, id, nodeId, e, uploaded, knownCategory, host, isIp);
    hide VaultOk, ResolveOrigin, UploadLoot;
    UnlinkedLootGoes(v, UploadLoot(v, id, nodeId, e, uploaded, knownCategory, host, isIp).0, e, id);
  }

  lemma NewUpload(v: Vault, id: nat, nodeId: nat, e: nat, uploaded: bool, knownCategory: bool, host: string, isIp: bool)
    requires id !in v.loot && nodeId !in v.nodes
    requires UploadLoot(v, id, nodeId, e, uploaded, knownCategory, host, isIp).1 == Done
    ensures var v' := UploadLoot(v, id, nodeId, e, uploaded, knownCategory, host, isIp).0;
      && v' == v.(nodes := ResolveOrigin(v, nodeId, e, host, isIp).0.nodes, loot := v'.loot)
      && v'.loot - {id} == v.loot && id in v'.loot && v'.loot[id].engagement == e
  {
    hide ResolveOrigin;
    var v' := UploadLoot(v, id, nodeId, e, uploaded, knownCategory, host, isIp).0;
    PutThenRemove(v.loot, id, v'.loot[id]);
  }

  lemma UnlinkedLootGoes(v: Vault, v': Vault, e: nat, id: nat)
    requires v' == v.(nodes := v'.nodes, loot := v'.loot) && id in v'.loot && v'.loot[id].engagement == e
    requires !LootIsLinked(v, id) && v'.loot - {id} == v.loot
    requires forall i <- v.mappings :: v.mappings[i].lootFile != Some(id)
    ensures DeleteLoot(v', e, id) == (v.(nodes := v'.nodes), Done)
  {
    assert !LootIsLinked(v', id);
    var w := DeleteLoot(v', e, id).0;
    assert w.mappings == v.mappings;
  }

  /** Cancelling a fresh deletion request leaves no trace of it, whichever admin cancels. */
  lemma CancelUndoesRequest(v: Vault, actor: nat, other: nat, e: nat)
    requires RequestDeletion(v, actor, e).1 == Done && ActiveAdmin(v, other)
    ensures CancelDeletion(RequestDeletion(v, actor, e).0, other, e) == (v, Done)
    ensures RequestDeletion(RequestDeletion(v, actor, e).0, other, e) == (RequestDeletion(v, actor, e).0, Flashed)
  {
    var v' := RequestDeletion(v, actor, e).0;
    assert v'.users == v.users && v'.engagements == v.engagements;
    PutThenRemove(v.requests, e, actor);
  }

  // ---------------------------------------------------------------- origins

  /** The host of an upload names exactly the nodes of its engagement, whatever the case and the blanks around it. */
  lemma OriginIsResolved(v: Vault, id: nat, e: nat, origin: string, isIp: bool)
    requires id !in v.nodes
    ensures var r := ResolveOrigin(v, id, e, origin, isIp);
      && (r.1.Some? <==> Strip(origin) != "")
      && (r.1.Some? ==> NamedIn(r.0, e, r.1.value))
  {
    hide Strip, Lower;
    var r := ResolveOrigin(v, id, e, origin, isIp);
    if r.1.Some? && !NamedIn(v, e, r.1.value) {
      assert id in r.0.nodes && r.0.nodes[id].engagement == e && Lower(r.0.nodes[id].name) == Lower(r.1.value);
    }
  }

  /** Resolving the same host again, in any case and with any blanks, adds no second node. */
  lemma ResolveOnce(v: Vault, id: nat, e: nat, origin: string, isIp: bool, id2: nat, again: string, isIp2: bool)
    requires id !in v.nodes && id2 !in ResolveOrigin(v, id, e, origin, isIp).0.nodes
    requires Lower(Strip(again)) == Lower(Strip(origin))
    ensures var v' := ResolveOrigin(v, id, e, origin, isIp).0;
      ResolveOrigin(v', id2, e, again, isIp2).0 == v'
  {
    OriginIsResolved(v, id, e, origin, isIp);
    SameLength(Strip(again), Strip(origin));
    hide Strip, Lower;
    var v' := ResolveOrigin(v, id, e, origin, isIp).0;
    if Strip(origin) != "" {
      assert NamedIn(v', e, Strip(origin));
      assert NamedIn(v', e, Strip(again));
    }
  }

  lemma SameLength(a: string, b: string)
    requires Lower(a) == Lower(b)
    ensures |a| == |b|
  {
    assert |Lower(a)| == |a| && |Lower(b)| == |b|;
  }

  /** Two uploads from one host make one node between them: the second only adds the file. */
  lemma SecondUploadAddsNoNode(v: Vault, id: nat, nodeId: nat, e: nat, host: string, isIp: bool,
                               id2: nat, nodeId2: nat, host2: string, isIp2: bool)
    requires e in v.engagements && id !in v.loot && nodeId !in v.nodes && id2 !in v.loot && id2 != id
    requires nodeId2 !in UploadLoot(v, id, nodeId, e, true, true, host, isIp).0.nodes
    requires Lower(Strip(host2)) == Lower(Strip(host))
    ensures var v' := UploadLoot(v, id, nodeId, e, true, true, host, isIp).0;
      UploadLoot(v', id2, nodeId2, e, true, true, host2, isIp2).0.nodes == v'.nodes
  {
    ResolveOnce(v, nodeId, e, host, isIp, nodeId2, host2, isIp2);
    var v' := UploadLoot(v, id, nodeId, e, true, true, host, isIp).0;
    var v1 := ResolveOrigin(v, nodeId, e, host, isIp).0;
    hide Strip, Lower;
    assert NamedIn(v1, e, Strip(host2)) <==> NamedIn(v', e, Strip(host2));
  }

  // ---------------------------------------------------------------- edges

  /** Two different nodes of one pane can be joined, and the new edge is listed on that pane and no other. */
  lemma NodesOfAPaneJoin(v: Vault, id: nat, pane: Pane, e: nat, a: nat, b: nat)
    requires VaultOk(v) && id !in v.edges && a != 0 && b != 0 && a != b
    requires HasNode(v, pane, e, a) && HasNode(v, pane, e, b)
    ensures var r := CreateEdge(v, id, pane, e, Some(a), Some(b));
      && r.1 == Done
      && (forall p :: id in ListEdges(r.0, p, e) <==> p == pane)
  {
    hide KillChainOk, LinksOk, UsersOk, RequestsOk, PaneOf, RoleFits, StatusFits, TypeFits;
    assert NodeOk(v.engagements.Keys, v.nodes[a]);
  }

  /** Nodes of two panes are never joined, in either order and from either pane. */
  lemma PanesAreNotJoined(v: Vault, id: nat, pane: Pane, e: nat, a: nat, b: nat)
    requires id !in v.edges && a in v.nodes && b in v.nodes && PaneOf(v.nodes[a].role) != PaneOf(v.nodes[b].role)
    ensures CreateEdge(v, id, pane, e, Some(a), Some(b)).1 != Done
    ensures CreateEdge(v, id, pane, e, Some(b), Some(a)).1 != Done
  {
    hide PaneOf;
  }

  // ---------------------------------------------------------------- loot

  /** A loot file that a finding links is kept; deleting that finding frees it when nothing else links it. */
  lemma UnlinkingFreesLoot(v: Vault, e: nat, id: nat, f: nat)
    requires id in v.loot && v.loot[id].engagement == e && f in v.findings && v.findings[f].engagement == e
    requires id in v.findings[f].links.loot
    requires forall g <- v.findings :: g != f ==> id !in v.findings[g].links.loot
    requires forall k <- v.entries :: id !in v.entries[k].loot
    ensures DeleteLoot(v, e, id) == (v, Aborted(500))
    ensures DeleteFinding(v, e, f).1 == Done && DeleteLoot(DeleteFinding(v, e, f).0, e, id).1 == Done
  {
    assert LootIsLinked(v, id);
    var v' := DeleteFinding(v, e, f).0;
    assert v'.findings == v.findings - {f};
    assert !LootIsLinked(v', id);
  }

  /** Editing a file's origin twice to the same host is editing it once. */
  lemma UpdateLootTwice(v: Vault, nodeId: nat, nodeId2: nat, e: nat, id: nat, knownCategory: bool, host: Option<string>,
                        isIp: bool)
    requires nodeId !in v.nodes && UpdateLoot(v, nodeId, e, id, knownCategory, host, isIp).1 == Done
    requires nodeId2 !in UpdateLoot(v, nodeId, e, id, knownCategory, host, isIp).0.nodes
    ensures var v' := UpdateLoot(v, nodeId, e, id, knownCategory, host, isIp).0;
      UpdateLoot(v', nodeId2, e, id, knownCategory, host, isIp) == (v', Done)
  {
    hide Strip, Lower, ResolveOrigin;
    var v' := UpdateLoot(v, nodeId, e, id, knownCategory, host, isIp).0;
    if host.Some? {
      var v1 := ResolveOrigin(v, nodeId, e, host.value, isIp).0;
      ResolveOnce(v, nodeId, e, host.value, isIp, nodeId2, host.value, isIp);
      ResolveByNodes(v1, v', nodeId2, e, host.value, isIp);
      ResolveByNodes(v, v, nodeId, e, host.value, isIp);
      assert v'.loot[id := LootFile(e, ResolveOrigin(v, nodeId, e, host.value, isIp).1)] == v'.loot;
    }
  }

  /** Only the nodes decide what an origin resolves to; the host it gives is the text itself. */
  lemma ResolveByNodes(v: Vault, w: Vault, id: nat, e: nat, origin: string, isIp: bool)
    requires id !in v.nodes && id !in w.nodes
    ensures v.nodes == w.nodes ==>
              ResolveOrigin(v, id, e, origin, isIp).0.nodes == ResolveOrigin(w, id, e, origin, isIp).0.nodes
    ensures ResolveOrigin(w, id, e, origin, isIp).1 == if Strip(origin) == "" then None else Some(Strip(origin))
  {
    hide Strip, Lower;
    if v.nodes == w.nodes {
      assert NamedIn(v, e, Strip(origin)) <==> NamedIn(w, e, Strip(origin));
    }
  }

  // ---------------------------------------------------------------- accounts and engagements

  /** In any run the setup wizard succeeds at most once. */
  lemma SetUpOnce(ops: seq<Op>, vaults: seq<Vault>, i: nat, k: nat)
    requires IsRun(ops, vaults) && i < k < |ops|
    requires ops[i].OfUsers? && ops[i].users.OpSetUp? && Apply(vaults[i], ops[i]).1 == Done
    requires ops[k].OfUsers? && ops[k].users.OpSetUp?
    ensures Apply(vaults[k], ops[k]) == (vaults[k], Flashed)
  {
    hide Enabled, Strip;
    assert Enabled(vaults[i], ops[i]) && vaults[i + 1] == Apply(vaults[i], ops[i]).0;
    assert ops[i].users.id in vaults[i + 1].users;
    StaysSetUp(ops, vaults, i + 1, k);
    assert Enabled(vaults[k], ops[k]);
  }

  /** A username that was given out is refused from then on, whoever asks and with whatever blanks around it. */
  lemma UsernamesAreTakenOnce(v: Vault, id: nat, actor: nat, username: string, password: string, role: string,
                              id2: nat, actor2: nat, username2: string, password2: string, role2: string)
    requires id !in v.users && CreateUser(v, id, actor, username, password, role).1 == Done
    requires id2 !in CreateUser(v, id, actor, username, password, role).0.users
    requires Strip(username2) == Strip(username)
    ensures var v' := CreateUser(v, id, actor, username, password, role).0;
      && UsernameTaken(v', Strip(username))
      && CreateUser(v', id2, actor2, username2, password2, role2).1 != Done
  {
    hide Strip, ActiveAdmin;
    var v' := CreateUser(v, id, actor, username, password, role).0;
    assert v'.users[id].username == Strip(username);
  }

  /** Without times, an entry is refused for its fields alone. */
  lemma UntimedCheck(model: string, stage: string, title: string)
    requires Given(Some(stage)) && Given(Some(title))
    ensures EntryCheck(model, Some(stage), Some(title), None, None) == Done <==> stage in StagesFor(model)
  {
    hide StagesFor;
  }

  /** An entry without times and loot is taken exactly when its stage is one of the engagement's model. */
  lemma EntryTakenIff(v: Vault, e: nat, id: nat, stage: string, title: string, dialect: Dialect, createdAt: int)
    requires e in v.engagements && id !in v.entries && Given(Some(stage)) && Given(Some(title))
    ensures CreateEntry(v, id, e, Some(stage), Some(title), None, None, dialect, createdAt, None).1 == Done
       <==> stage in StagesFor(v.engagements[e].model)
  {
    hide Strip, StagesFor, EntryCheck, Linked, LootOf, Given;
    UntimedCheck(v.engagements[e].model, stage, title);
  }

  lemma NewEngagement(v: Vault, e: nat, name: Option<string>, client: Option<string>, model: Option<string>)
    requires e !in v.engagements
    ensures var r := CreateEngagement(v, e, name, client, model);
      r.1 == Done ==>
        r.0.entries == v.entries && e in r.0.engagements && r.0.engagements[e].model == ModelOf(model)
  {
    hide Strip, ModelOf;
    if Given(name) && Given(client) && ModelOf(model) in KILL_CHAIN_MODELS {
      var now := Engagement(Strip(name.value), Strip(client.value), ModelOf(model));
      assert CreateEngagement(v, e, name, client, model) == (v.(engagements := v.engagements[e := now]), Done);
    } else {
      assert CreateEngagement(v, e, name, client, model) == (v, Aborted(400));
    }
  }

  /** A new engagement takes an entry exactly at the stages of the model it was given. */
  lemma NewEngagementTakesItsStages(v: Vault, e: nat, name: Option<string>, client: Option<string>, model: Option<string>,
                                    id: nat, stage: string, title: string, dialect: Dialect, createdAt: int)
    requires e !in v.engagements && CreateEngagement(v, e, name, client, model).1 == Done
    requires id !in v.entries && Given(Some(stage)) && Given(Some(title))
    ensures var v' := CreateEngagement(v, e, name, client, model).0;
      CreateEntry(v', id, e, Some(stage), Some(title), None, None, dialect, createdAt, None).1 == Done
      <==> stage in StagesFor(ModelOf(model))
  {
    hide *;
    NewEngagement(v, e, name, client, model);
    EntryTakenIff(CreateEngagement(v, e, name, client, model).0, e, id, stage, title, dialect, createdAt);
  }
}
