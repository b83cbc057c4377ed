/**
  The request handlers, working on the tables step by step.  Each does what its
  step says, keeps everything a vault owes, and promises its caller what the
  request is for.
 */
module VaultRoutes {
  import opened Wrappers
  import opened Text
  import opened Times
  import opened VaultState
  import opened VaultSteps
  import opened VaultContracts

  class VaultDb {
    var users: map<nat, User>
    var engagements: map<nat, Engagement>
    var requests: map<nat, nat>
    var nodes: map<nat, Node>
    var edges: map<nat, Edge>
    var loot: map<nat, LootFile>
    var credentials: map<nat, nat>
    var iocs: map<nat, nat>
    var entries: map<nat, Entry>
    var findings: map<nat, Finding>
    var mappings: map<nat, Mapping>

    ghost function State(): Vault
      reads this
    {
      Vault(users, engagements, requests, nodes, edges, loot, credentials, iocs, entries, findings, mappings)
    }

    constructor ()
      ensures State() == EMPTY
    {
      users, engagements, requests, nodes, edges, loot := map[], map[], map[], map[], map[], map[];
      credentials, iocs, entries, findings, mappings := map[], map[], map[], map[], map[];
    }

    // ---------------------------------------------------------------- nodes

    /** The checks of a new node's fields, in order. */
    static method CheckNode(pane: Pane, nodeType: Option<string>, name: Option<string>, role: Option<string>,
                            status: Option<string>) returns (ok: bool)
      ensures ok <==> NodeFits(pane, nodeType, name, role, status)
    {
      hide TypeFits, RoleFits, StatusFits;
      if !Given(nodeType) || !Given(name) || !TypeFits(pane, nodeType.value) {
        return false;
      }
      if !RoleFits(pane, OrNone(role)) {
        return false;
      }
      return StatusFits(pane, OrNone(status));
    }

    method StoreNewNode(id: nat, pane: Pane, e: nat, nodeType: Option<string>, name: Option<string>, role: Option<string>,
                      status: Option<string>)
      returns (reply: Reply)
      requires id !in nodes
      modifies this`nodes
      ensures (State(), reply) == VaultSteps.CreateNode(old(State()), id, pane, e, nodeType, name, role, status)
    {
      hide NodeFits, NewNode;
      if e !in engagements {
        return Aborted(404);
      }
      var ok := CheckNode(pane, nodeType, name, role, status);
      if !ok {
        return Aborted(400);
      }
      nodes := nodes[id := NewNode(e, nodeType, name, role, status)];
      return Done;
    }

    method CreateNode(id: nat, pane: Pane, e: nat, nodeType: Option<string>, name: Option<string>, role: Option<string>,
                      status: Option<string>)
      returns (reply: Reply)
      requires id !in nodes
      requires VaultOk(State())
      modifies this`nodes
      ensures (State(), reply) == VaultSteps.CreateNode(old(State()), id, pane, e, nodeType, name, role, status)
      ensures VaultOk(State())
      ensures reply == Done ==> VaultSteps.DeleteNode(State(), pane, e, id) == (old(State()), Done)
    {
      hide VaultSteps.CreateNode, VaultOk, VaultSteps.DeleteNode;
      ghost var v := State();
      reply := StoreNewNode(id, pane, e, nodeType, name, role, status);
      if reply == Done {
        assert VaultSteps.CreateNode(v, id, pane, e, nodeType, name, role, status) == (State(), Done);
        NodeCreated(v, id, pane, e, nodeType, name, role, status);
      }
    }

    /** The fields of the request one after the other; None is the first of them that does not fit. */
    static method PatchNode(pane: Pane, was: Node, patch: NodePatch) returns (r: Option<Node>)
      ensures r == if PatchFits(pane, patch) then Some(Patched(was, patch)) else None
    {
      hide Strip, TypeFits, RoleFits, StatusFits;
      var node := was;
      if patch.nodeType.Some? {
        if patch.nodeType.value.None? || !TypeFits(pane, patch.nodeType.value.value) {
          return None;
        }
        node := node.(nodeType := patch.nodeType.value.value);
      }
      if patch.name.Some? {
        var name := StrOrNone(patch.name.value);
        if name.None? {
          return None;
        }
        node := node.(name := name.value);
      }
      if patch.role.Some? {
        var role := OrNone(patch.role.value);
        if !RoleFits(pane, role) {
          return None;
        }
        node := node.(role := role);
      }
      if patch.status.Some? {
        var status := OrNone(patch.status.value);
        if !StatusFits(pane, status) {
          return None;
        }
        node := node.(status := status);
      }
      return Some(node);
    }

    /** Nothing is stored before all fields passed. */
    method StorePatchedNode(pane: Pane, e: nat, id: nat, patch: NodePatch) returns (reply: Reply)
      modifies this`nodes
      ensures (State(), reply) == VaultSteps.UpdateNode(old(State()), pane, e, id, patch)
    {
      hide PatchFits, Patched, PaneOf;
      if id !in nodes || nodes[id].engagement != e || PaneOf(nodes[id].role) != pane {
        return Aborted(404);
      }
      var node := PatchNode(pane, nodes[id], patch);
      if node.None? {
        return Aborted(400);
      }
      nodes := nodes[id := node.value];
      return Done;
    }

    method UpdateNode(pane: Pane, e: nat, id: nat, patch: NodePatch) returns (reply: Reply)
      requires VaultOk(State())
      modifies this`nodes
      ensures (State(), reply) == VaultSteps.UpdateNode(old(State()), pane, e, id, patch)
      ensures VaultOk(State())
      ensures reply == Done ==> NodeStaysPut(old(State()), State(), e, id)
    {
      hide VaultSteps.UpdateNode, VaultOk, NodeStaysPut;
      ghost var v := State();
      reply := StorePatchedNode(pane, e, id, patch);
      if reply == Done {
        assert VaultSteps.UpdateNode(v, pane, e, id, patch) == (State(), Done);
        NodeUpdated(v, pane, e, id, patch);
      }
    }

    /** The edges go by their foreign keys, the finding links by the mapper. */
    method DeleteNode(pane: Pane, e: nat, id: nat) returns (reply: Reply)
      requires VaultOk(State())
      modifies this`nodes, this`edges, this`findings
      ensures (State(), reply) == VaultSteps.DeleteNode(old(State()), pane, e, id)
      ensures VaultOk(State())
      ensures reply == Done ==> NodeIsGone(State(), id)
    {
      hide PaneOf, VaultOk, NodeIsGone, EdgesWithout, UnlinkNode;
      ghost var v := State();
      if id !in nodes || nodes[id].engagement != e || (pane == Targets && PaneOf(nodes[id].role) != Targets) {
        return Aborted(404);
      }
      findings := UnlinkNode(findings, id);
      nodes := nodes - {id};
      edges := EdgesWithout(edges, id);
      assert VaultSteps.DeleteNode(v, pane, e, id) == (State(), Done);
      NodeDeleted(v, pane, e, id);
      return Done;
    }

    method HostIsKnown(e: nat, name: string) returns (known: bool)
      ensures known == NamedIn(State(), e, name)
    {
      hide Lower;
      known := exists i <- nodes :: nodes[i].engagement == e && Lower(nodes[i].name) == Lower(name);
    }

    /** `resolve_origin_node` */
    method AddOriginNode(id: nat, e: nat, origin: string, isIp: bool) returns (host: Option<string>)
      requires id !in nodes
      modifies this`nodes
      ensures (State(), host) == VaultSteps.ResolveOrigin(old(State()), id, e, origin, isIp)
    {
      hide Strip;
      var name := Strip(origin);
      if name == "" {
        return None;
      }
      var known := HostIsKnown(e, name);
      if !known {
        nodes := nodes[id := Node(e, if isIp then "ip_address" else "hostname", name, Some("target"), Some("healthy"))];
      }
      return Some(name);
    }

    method ResolveOriginNode(id: nat, e: nat, origin: string, isIp: bool) returns (host: Option<string>)
      requires id !in nodes && e in engagements && VaultOk(State())
      modifies this`nodes
      ensures (State(), host) == VaultSteps.ResolveOrigin(old(State()), id, e, origin, isIp)
      ensures VaultOk(State()) && (host.Some? <==> Strip(origin) != "")
      ensures host.Some? ==> NamedIn(State(), e, host.value)
    {
      hide Strip, VaultOk, NamedIn, VaultSteps.ResolveOrigin;
      OriginResolved(State(), id, e, origin, isIp);
      host := AddOriginNode(id, e, origin, isIp);
    }

    method UploadLoot(id: nat, nodeId: nat, e: nat, uploaded: bool, knownCategory: bool, host: string, isIp: bool)
      returns (reply: Reply)
      requires id !in loot && nodeId !in nodes
      requires VaultOk(State())
      modifies this`nodes, this`loot
      ensures (State(), reply) == VaultSteps.UploadLoot(old(State()), id, nodeId, e, uploaded, knownCategory, host, isIp)
      ensures VaultOk(State())
      ensures reply == Done ==> FileIsOnRecord(State(), e, id)
    {
      hide ResolveOrigin, VaultOk, FileIsOnRecord;
      ghost var v := State();
      if e !in engagements {
        return Aborted(404);
      }
      if !uploaded {
        return Aborted(400);
      }
      if !knownCategory {
        return Aborted(400);
      }
      var origin := ResolveOriginNode(nodeId, e, host, isIp);
      loot := loot[id := LootFile(e, origin)];
      assert VaultSteps.UploadLoot(v, id, nodeId, e, uploaded, knownCategory, host, isIp) == (State(), Done);
      LootUploaded(v, id, nodeId, e, uploaded, knownCategory, host, isIp);
      return Done;
    }

    method UpdateLoot(nodeId: nat, e: nat, id: nat, knownCategory: bool, host: Option<string>, isIp: bool)
      returns (reply: Reply)
      requires nodeId !in nodes
      requires VaultOk(State())
      modifies this`nodes, this`loot
      ensures (State(), reply) == VaultSteps.UpdateLoot(old(State()), nodeId, e, id, knownCategory, host, isIp)
      ensures VaultOk(State())
      ensures reply == Done && host.Some? ==> FileIsOnRecord(State(), e, id)
    {
      hide ResolveOrigin, VaultOk, FileIsOnRecord;
      ghost var v := State();
      if id !in loot || loot[id].engagement != e {
        return Aborted(404);
      }
      if !knownCategory {
        return Aborted(400);
      }
      if host.Some? {
        LootHasEngagement(State(), id);
        var origin := ResolveOriginNode(nodeId, e, host.value, isIp);
        loot := loot[id := loot[id].(host := origin)];
      }
      assert VaultSteps.UpdateLoot(v, nodeId, e, id, knownCategory, host, isIp) == (State(), Done);
      LootUpdated(v, nodeId, e, id, knownCategory, host, isIp);
      return Done;
    }

    /** The delete fails on the foreign keys of the two link tables; the mappings cascade. */
    method DeleteLoot(e: nat, id: nat) returns (reply: Reply)
      requires VaultOk(State())
      modifies this`loot, this`mappings
      ensures (State(), reply) == VaultSteps.DeleteLoot(old(State()), e, id)
      ensures VaultOk(State())
      ensures reply == Done ==> LootIsGone(State(), id)
    {
      hide VaultOk, LootIsGone, MappingsWithoutLoot;
      ghost var v := State();
      if id !in loot || loot[id].engagement != e {
        return Aborted(404);
      }
      if exists f <- findings :: id in findings[f].links.loot {
        return Aborted(500);
      }
      if exists k <- entries :: id in entries[k].loot {
        return Aborted(500);
      }
      mappings := MappingsWithoutLoot(mappings, id);
      loot := loot - {id};
      assert VaultSteps.DeleteLoot(v, e, id) == (State(), Done);
      LootDeleted(v, e, id);
      return Done;
    }

    // ---------------------------------------------------------------- credentials and IOCs

    method CreateCredential(id: nat, e: nat) returns (reply: Reply)
      requires id !in credentials
      requires VaultOk(State())
      modifies this`credentials
      ensures (State(), reply) == VaultSteps.CreateCredential(old(State()), id, e)
      ensures VaultOk(State())
      ensures reply == Done ==> VaultSteps.DeleteCredential(State(), e, id) == (old(State()), Done)
    {
      hide VaultOk, VaultSteps.DeleteCredential;
      ghost var v := State();
      if e !in engagements {
        return Aborted(404);
      }
      credentials := credentials[id := e];
      assert VaultSteps.CreateCredential(v, id, e) == (State(), Done);
      CredentialCreated(v, id, e);
      return Done;
    }

    method DeleteCredential(e: nat, id: nat) returns (reply: Reply)
      requires VaultOk(State())
      modifies this`credentials, this`findings
      ensures (State(), reply) == VaultSteps.DeleteCredential(old(State()), e, id)
      ensures VaultOk(State())
      ensures reply == Done ==> CredentialIsGone(State(), id)
    {
      hide VaultOk, CredentialIsGone, UnlinkCredential;
      ghost var v := State();
      if id !in credentials || credentials[id] != e {
        return Aborted(404);
      }
      findings := UnlinkCredential(findings, id);
      credentials := credentials - {id};
      assert VaultSteps.DeleteCredential(v, e, id) == (State(), Done);
      CredentialDeleted(v, e, id);
      return Done;
    }

    method CreateIoc(id: nat, e: nat) returns (reply: Reply)
      requires id !in iocs
      requires VaultOk(State())
      modifies this`iocs
      ensures (State(), reply) == VaultSteps.CreateIoc(old(State()), id, e)
      ensures VaultOk(State())
      ensures reply == Done ==> VaultSteps.DeleteIoc(State(), e, id) == (old(State()), Done)
    {
      hide VaultOk, VaultSteps.DeleteIoc;
      ghost var v := State();
      if e !in engagements {
        return Aborted(404);
      }
      iocs := iocs[id := e];
      assert VaultSteps.CreateIoc(v, id, e) == (State(), Done);
      IocCreated(v, id, e);
      return Done;
    }

    method DeleteIoc(e: nat, id: nat) returns (reply: Reply)
      requires VaultOk(State())
      modifies this`iocs, this`findings
      ensures (State(), reply) == VaultSteps.DeleteIoc(old(State()), e, id)
      ensures VaultOk(State())
      ensures reply == Done ==> IocIsGone(State(), id)
    {
      hide VaultOk, IocIsGone, UnlinkIoc;
      ghost var v := State();
      if id !in iocs || iocs[id] != e {
        return Aborted(404);
      }
      findings := UnlinkIoc(findings, id);
      iocs := iocs - {id};
      assert VaultSteps.DeleteIoc(v, e, id) == (State(), Done);
      IocDeleted(v, e, id);
      return Done;
    }

    // ---------------------------------------------------------------- edges

    /** `_resolve_edge_nodes`: each check in turn, then both ids. */
    method ResolveEdgeNodes(pane: Pane, e: nat, source: Option<nat>, target: Option<nat>) returns (ids: Option<(nat, nat)>)
      ensures ids.Some? <==> EdgeResolves(State(), pane, e, source, target)
      ensures ids.Some? ==> ids == Some((source.value, target.value))
    {
      hide PaneOf;
      if source.None? || target.None? || source.value == 0 || target.value == 0 {
        return None;
      }
      if source.value == target.value {
        return None;
      }
      if source.value !in nodes || target.value !in nodes {
        return None;
      }
      var s, t := nodes[source.value], nodes[target.value];
      if s.engagement != e || t.engagement != e {
        return None;
      }
      if PaneOf(s.role) != pane || PaneOf(t.role) != pane {
        return None;
      }
      return Some((source.value, target.value));
    }

    method CreateEdge(id: nat, pane: Pane, e: nat, source: Option<nat>, target: Option<nat>) returns (reply: Reply)
      requires id !in edges
      requires VaultOk(State())
      modifies this`edges
      ensures (State(), reply) == VaultSteps.CreateEdge(old(State()), id, pane, e, source, target)
      ensures VaultOk(State())
      ensures reply == Done ==> forall p :: id in ListEdges(State(), p, e) <==> p == pane
    {
      hide EdgeResolves, VaultOk, ListEdges;
      ghost var v := State();
      if e !in engagements {
        return Aborted(404);
      }
      var ids := ResolveEdgeNodes(pane, e, source, target);
      if ids.None? {
        return Aborted(400);
      }
      edges := edges[id := Edge(e, ids.value.0, ids.value.1)];
      assert VaultSteps.CreateEdge(v, id, pane, e, source, target) == (State(), Done);
      EdgeCreated(v, id, pane, e, source, target);
      return Done;
    }

    method StoreMovedEdge(pane: Pane, e: nat, id: nat, source: Option<Option<nat>>, target: Option<Option<nat>>)
      returns (reply: Reply)
      modifies this`edges
      ensures (State(), reply) == VaultSteps.UpdateEdge(old(State()), pane, e, id, source, target)
    {
      hide EdgeResolves, PaneOf;
      if id !in edges || edges[id].engagement != e {
        return Aborted(404);
      }
      var edge := edges[id];
      if edge.source !in nodes || edge.target !in nodes
         || PaneOf(nodes[edge.source].role) != pane || PaneOf(nodes[edge.target].role) != pane {
        return Aborted(404);
      }
      if source.Some? || target.Some? {
        var ids := ResolveEdgeNodes(pane, e, source.GetOr(Some(edge.source)), target.GetOr(Some(edge.target)));
        if ids.None? {
          return Aborted(400);
        }
        edge := edge.(source := ids.value.0, target := ids.value.1);
        edges := edges[id := edge];
      }
      return Done;
    }

    method UpdateEdge(pane: Pane, e: nat, id: nat, source: Option<Option<nat>>, target: Option<Option<nat>>)
      returns (reply: Reply)
      requires VaultOk(State())
      modifies this`edges
      ensures (State(), reply) == VaultSteps.UpdateEdge(old(State()), pane, e, id, source, target)
      ensures VaultOk(State())
      ensures reply == Done ==> forall p :: id in ListEdges(State(), p, e) <==> p == pane
    {
      hide VaultSteps.UpdateEdge, VaultOk, ListEdges;
      ghost var v := State();
      reply := StoreMovedEdge(pane, e, id, source, target);
      if reply == Done {
        assert VaultSteps.UpdateEdge(v, pane, e, id, source, target) == (State(), Done);
        EdgeUpdated(v, pane, e, id, source, target);
      }
    }

    method DeleteEdge(e: nat, id: nat) returns (reply: Reply)
      requires VaultOk(State())
      modifies this`edges
      ensures (State(), reply) == VaultSteps.DeleteEdge(old(State()), e, id)
      ensures VaultOk(State())
      ensures reply == Done ==> forall p, f :: ListEdges(State(), p, f) == old(ListEdges(State(), p, f)) - {id}
    {
      hide VaultOk, ListEdges;
      ghost var v := State();
      if id !in edges || edges[id].engagement != e {
        return Aborted(404);
      }
      edges := edges - {id};
      assert VaultSteps.DeleteEdge(v, e, id) == (State(), Done);
      EdgeDeleted(v, e, id);
      return Done;
    }

    // ---------------------------------------------------------------- engagements and kill chain entries

    method CreateEngagement(id: nat, name: Option<string>, client: Option<string>, model: Option<string>)
      returns (reply: Reply)
      requires id !in engagements
      requires VaultOk(State())
      modifies this`engagements
      ensures (State(), reply) == VaultSteps.CreateEngagement(old(State()), id, name, client, model)
      ensures VaultOk(State())
      ensures reply == Done ==> id in engagements && !HasEntries(State(), id)
    {
      hide Strip, VaultOk, HasEntries;
      ghost var v := State();
      if !Given(name) || !Given(client) {
        return Aborted(400);
      }
      var given := ModelOf(model);
      if given !in KILL_CHAIN_MODELS {
        return Aborted(400);
      }
      engagements := engagements[id := Engagement(Strip(name.value), Strip(client.value), given)];
      assert VaultSteps.CreateEngagement(v, id, name, client, model) == (State(), Done);
      EngagementCreated(v, id, name, client, model);
      return Done;
    }

    /** The fields of the request one after the other; None is the first of them that does not fit. */
    static method PatchEngagement(was: Engagement, hasEntries: bool, name: Field, client: Field, model: Field)
      returns (r: Option<Engagement>)
      ensures r == if EngagementPatchFits(hasEntries, name, client, model)
                   then Some(PatchedEngagement(was, name, client, model)) else None
    {
      hide Strip;
      var engagement := was;
      if name.Some? {
        var given := StrOrNone(name.value);
        if given.None? {
          return None;
        }
        engagement := engagement.(name := given.value);
      }
      if client.Some? {
        var given := StrOrNone(client.value);
        if given.None? {
          return None;
        }
        engagement := engagement.(client := given.value);
      }
      if model.Some? {
        if hasEntries || model.value.None? || model.value.value !in KILL_CHAIN_MODELS {
          return None;
        }
        engagement := engagement.(model := model.value.value);
      }
      return Some(engagement);
    }

    method StorePatchedEngagement(e: nat, name: Field, client: Field, model: Field) returns (reply: Reply)
      modifies this`engagements
      ensures (State(), reply) == VaultSteps.UpdateEngagement(old(State()), e, name, client, model)
    {
      hide EngagementPatchFits, PatchedEngagement;
      if e !in engagements {
        return Aborted(404);
      }
      var hasEntries := exists i <- entries :: entries[i].engagement == e;
      var engagement := PatchEngagement(engagements[e], hasEntries, name, client, model);
      if engagement.None? {
        return Aborted(400);
      }
      engagements := engagements[e := engagement.value];
      return Done;
    }

    method UpdateEngagement(e: nat, name: Field, client: Field, model: Field) returns (reply: Reply)
      requires VaultOk(State())
      modifies this`engagements
      ensures (State(), reply) == VaultSteps.UpdateEngagement(old(State()), e, name, client, model)
      ensures VaultOk(State())
      ensures reply == Done ==> ModelIsKept(old(State()), State(), e)
    {
      hide VaultSteps.UpdateEngagement, VaultOk, ModelIsKept;
      ghost var v := State();
      reply := StorePatchedEngagement(e, name, client, model);
      if reply == Done {
        assert VaultSteps.UpdateEngagement(v, e, name, client, model) == (State(), Done);
        EngagementUpdated(v, e, name, client, model);
      }
    }

    method EditEngagement(e: nat, name: string, client: string, model: Option<string>) returns (reply: Reply)
      requires VaultOk(State())
      modifies this`engagements
      ensures (State(), reply) == VaultSteps.EditEngagement(old(State()), e, name, client, model)
      ensures VaultOk(State())
      ensures reply == Done ==> ModelIsKept(old(State()), State(), e)
    {
      hide Strip, VaultOk, ModelIsKept;
      ghost var v := State();
      if e !in engagements {
        return Aborted(404);
      }
      if Strip(name) == "" || Strip(client) == "" {
        return Flashed;
      }
      var engagement := engagements[e].(name := Strip(name), client := Strip(client));
      if !exists i <- entries :: entries[i].engagement == e {
        var given := ModelOf(model);
        if given !in KILL_CHAIN_MODELS {
          return Aborted(400);
        }
        engagement := engagement.(model := given);
      }
      engagements := engagements[e := engagement];
      assert VaultSteps.EditEngagement(v, e, name, client, model) == (State(), Done);
      EngagementEdited(v, e, name, client, model);
      return Done;
    }

    /** The checks of a new entry's fields, in order. */
    static method CheckEntry(model: string, stage: Option<string>, title: Option<string>, startedAt: Option<Time>,
                             endedAt: Option<Time>) returns (r: Reply)
      ensures r == EntryCheck(model, stage, title, startedAt, endedAt)
    {
      hide StagesFor, CheckRange;
      if !Given(stage) || !Given(title) {
        return Aborted(400);
      }
      if stage.value !in StagesFor(model) {
        return Aborted(400);
      }
      var check := CheckRange(startedAt, endedAt);
      return if check == Valid then Done else RangeRefused(check);
    }

    method StoreNewEntry(id: nat, e: nat, stage: Option<string>, title: Option<string>, startedAt: Option<Time>,
                       endedAt: Option<Time>, dialect: Dialect, createdAt: int, lootIds: Option<seq<nat>>)
      returns (reply: Reply)
      requires id !in entries
      modifies this`entries
      ensures (State(), reply) ==
              VaultSteps.CreateEntry(old(State()), id, e, stage, title, startedAt, endedAt, dialect, createdAt, lootIds)
    {
      hide EntryCheck, StagesFor, CheckRange, StoredTime, Strip, Linked, LootOf;
      if e !in engagements {
        return Aborted(404);
      }
      var check := CheckEntry(engagements[e].model, stage, title, startedAt, endedAt);
      if check != Done {
        return check;
      }
      var linked := LinkedLoot(lootIds.GetOr([]), e);
      entries := entries[id := Entry(e, stage.value, Strip(title.value), StoredTime(dialect, startedAt),
                                     StoredTime(dialect, endedAt), createdAt, linked)];
      return Done;
    }

    method CreateEntry(id: nat, e: nat, stage: Option<string>, title: Option<string>, startedAt: Option<Time>,
                       endedAt: Option<Time>, dialect: Dialect, createdAt: int, lootIds: Option<seq<nat>>)
      returns (reply: Reply)
      requires id !in entries
      requires VaultOk(State())
      modifies this`entries
      ensures (State(), reply) ==
              VaultSteps.CreateEntry(old(State()), id, e, stage, title, startedAt, endedAt, dialect, createdAt, lootIds)
      ensures VaultOk(State())
      ensures reply == Done ==> VaultSteps.DeleteEntry(State(), e, id) == (old(State()), Done)
    {
      hide VaultSteps.CreateEntry, VaultOk, VaultSteps.DeleteEntry;
      ghost var v := State();
      reply := StoreNewEntry(id, e, stage, title, startedAt, endedAt, dialect, createdAt, lootIds);
      if reply == Done {
        assert VaultSteps.CreateEntry(v, id, e, stage, title, startedAt, endedAt, dialect, createdAt, lootIds) == (State(), Done);
        EntryCreated(v, id, e, stage, title, startedAt, endedAt, dialect, createdAt, lootIds);
      }
    }

    /** The query behind `_apply_loot_ids`. */
    method LinkedLoot(ids: seq<nat>, e: nat) returns (linked: set<nat>)
      ensures linked == Linked(ids, LootOf(State(), e))
    {
      linked := {};
      for i := 0 to |ids|
        invariant linked == set x | x in ids[..i] && x in loot && loot[x].engagement == e
      {
        assert ids[..i + 1] == ids[..i] + [ids[i]];
        if ids[i] in loot && loot[ids[i]].engagement == e {
          linked := linked + {ids[i]};
        }
      }
      assert ids[..|ids|] == ids;
    }

    /** The fields of the request one after the other, but for the loot links. */
    static method PatchEntry(model: string, was: Entry, patch: EntryPatch, dialect: Dialect) returns (r: Result<Entry, Reply>)
      ensures r == if EntryPatchCheck(model, was, patch) == Done then Ok(PatchedEntry(was, patch, dialect))
                   else Err(EntryPatchCheck(model, was, patch))
    {
      hide Strip, StagesFor, CheckRange, StoredTime;
      var entry := was;
      if patch.stage.Some? {
        if patch.stage.value.None? || patch.stage.value.value !in StagesFor(model) {
          return Err(Aborted(400));
        }
        entry := entry.(stage := patch.stage.value.value);
      }
      if patch.title.Some? {
        var title := StrOrNone(patch.title.value);
        if title.None? {
          return Err(Aborted(400));
        }
        entry := entry.(title := title.value);
      }
      var startedAt := if patch.startedAt.Some? then patch.startedAt.value else ReadBack(entry.startedAt);
      var endedAt := if patch.endedAt.Some? then patch.endedAt.value else ReadBack(entry.endedAt);
      var check := CheckRange(startedAt, endedAt);
      if check != Valid {
        return Err(RangeRefused(check));
      }
      return Ok(entry.(startedAt := StoredTime(dialect, startedAt), endedAt := StoredTime(dialect, endedAt)));
    }

    method StorePatchedEntry(e: nat, id: nat, patch: EntryPatch, dialect: Dialect) returns (reply: Reply)
      requires id in entries ==> entries[id].engagement in engagements
      modifies this`entries
      ensures (State(), reply) == VaultSteps.UpdateEntry(old(State()), e, id, patch, dialect)
    {
      hide PatchedEntry, EntryPatchCheck, Linked, LootOf;
      if id !in entries || entries[id].engagement != e {
        return Aborted(404);
      }
      var patched := PatchEntry(engagements[e].model, entries[id], patch, dialect);
      if patched.Err? {
        return patched.error;
      }
      var entry := patched.value;
      if patch.lootIds.Some? {
        var linked := LinkedLoot(patch.lootIds.value, e);
        entry := entry.(loot := linked);
      }
      entries := entries[id := entry];
      return Done;
    }

    method UpdateEntry(e: nat, id: nat, patch: EntryPatch, dialect: Dialect) returns (reply: Reply)
      requires VaultOk(State())
      modifies this`entries
      ensures (State(), reply) == VaultSteps.UpdateEntry(old(State()), e, id, patch, dialect)
      ensures VaultOk(State())
    {
      hide VaultSteps.UpdateEntry, VaultOk;
      ghost var v := State();
      if id in entries {
        EntryHasEngagement(State(), id);
      }
      reply := StorePatchedEntry(e, id, patch, dialect);
      if reply == Done {
        assert VaultSteps.UpdateEntry(v, e, id, patch, dialect) == (State(), Done);
        EntryUpdated(v, e, id, patch, dialect);
      }
    }

    method DeleteEntry(e: nat, id: nat) returns (reply: Reply)
      requires VaultOk(State())
      modifies this`entries, this`mappings, this`findings
      ensures (State(), reply) == VaultSteps.DeleteEntry(old(State()), e, id)
      ensures VaultOk(State())
      ensures reply == Done ==> EntryIsGone(State(), id)
    {
      hide VaultOk, EntryIsGone, MappingsWithoutEntry, UnlinkEntry;
      ghost var v := State();
      if id !in entries || entries[id].engagement != e {
        return Aborted(404);
      }
      mappings := MappingsWithoutEntry(mappings, id);
      findings := UnlinkEntry(findings, id);
      entries := entries - {id};
      assert VaultSteps.DeleteEntry(v, e, id) == (State(), Done);
      EntryDeleted(v, e, id);
      return Done;
    }

    // ---------------------------------------------------------------- findings and mappings

    /** `apply_correlations`: one query for each collection. */
    method ApplyCorrelations(e: nat, ids: LinkIds) returns (links: Links)
      ensures links == Correlated(State(), e, ids)
    {
      var lootLinks := LinkedLoot(ids.loot, e);
      var nodeLinks := set i | i in ids.nodes && i in nodes && nodes[i].engagement == e;
      var credentialLinks := set i | i in ids.credentials && i in credentials && credentials[i] == e;
      var iocLinks := set i | i in ids.iocs && i in iocs && iocs[i] == e;
      var entryLinks := set i | i in ids.entries && i in entries && entries[i].engagement == e;
      links := Links(lootLinks, nodeLinks, credentialLinks, iocLinks, entryLinks);
      assert nodeLinks == Linked(ids.nodes, NodesOf(State(), e));
      assert credentialLinks == Linked(ids.credentials, CredentialsOf(State(), e));
      assert iocLinks == Linked(ids.iocs, IocsOf(State(), e));
      assert entryLinks == Linked(ids.entries, EntriesOf(State(), e));
    }

    method CreateFinding(id: nat, e: nat, title: Option<string>, severity: Option<string>, ids: LinkIds) returns (reply: Reply)
      requires id !in findings
      requires VaultOk(State())
      modifies this`findings
      ensures (State(), reply) == VaultSteps.CreateFinding(old(State()), id, e, title, severity, ids)
      ensures VaultOk(State())
      ensures reply == Done ==> VaultSteps.DeleteFinding(State(), e, id) == (old(State()), Done)
    {
      hide Strip, Correlated, VaultOk, VaultSteps.DeleteFinding;
      ghost var v := State();
      if e !in engagements {
        return Aborted(404);
      }
      if !Given(title) || !Given(severity) {
        return Aborted(400);
      }
      if severity.value !in SEVERITIES {
        return Aborted(400);
      }
      var links := ApplyCorrelations(e, ids);
      findings := findings[id := Finding(e, Strip(title.value), severity.value, links)];
      assert VaultSteps.CreateFinding(v, id, e, title, severity, ids) == (State(), Done);
      FindingCreated(v, id, e, title, severity, ids);
      return Done;
    }

    method UpdateFinding(e: nat, id: nat, title: Field, severity: Field, ids: Option<LinkIds>) returns (reply: Reply)
      requires VaultOk(State())
      modifies this`findings
      ensures (State(), reply) == VaultSteps.UpdateFinding(old(State()), e, id, title, severity, ids)
      ensures VaultOk(State())
      ensures reply == Done && ids.None? ==> id in old(findings) && id in findings && findings[id].links == old(findings)[id].links
    {
      hide Strip, Correlated, VaultOk;
      ghost var v := State();
      if id !in findings || findings[id].engagement != e {
        return Aborted(404);
      }
      var finding := findings[id];
      if title.Some? {
        var given := StrOrNone(title.value);
        if given.None? {
          return Aborted(400);
        }
        finding := finding.(title := given.value);
      }
      if severity.Some? {
        if severity.value.None? || severity.value.value !in SEVERITIES {
          return Aborted(400);
        }
        finding := finding.(severity := severity.value.value);
      }
      if ids.Some? {
        var links := ApplyCorrelations(e, ids.value);
        finding := finding.(links := links);
      }
      findings := findings[id := finding];
      assert VaultSteps.UpdateFinding(v, e, id, title, severity, ids) == (State(), Done);
      FindingUpdated(v, e, id, title, severity, ids);
      return Done;
    }

    method DeleteFinding(e: nat, id: nat) returns (reply: Reply)
      requires VaultOk(State())
      modifies this`findings
      ensures (State(), reply) == VaultSteps.DeleteFinding(old(State()), e, id)
      ensures VaultOk(State())
      ensures reply == Done ==> FindingIsGone(old(State()), State(), id)
    {
      hide VaultOk, FindingIsGone;
      ghost var v := State();
      if id !in findings || findings[id].engagement != e {
        return Aborted(404);
      }
      findings := findings - {id};
      assert VaultSteps.DeleteFinding(v, e, id) == (State(), Done);
      FindingDeleted(v, e, id);
      return Done;
    }

    /** `_create_mapping`: the one place a mapping is made, given its one target in its own engagement. */
    method CreateMapping(id: nat, e: nat, technique: Option<nat>, file: Option<nat>, entry: Option<nat>) returns (reply: Reply)
      requires id !in mappings && VaultOk(State())
      requires technique.Some? ==> MappingOk(State(), Mapping(e, technique.value, file, entry))
      modifies this`mappings
      ensures VaultOk(State())
      ensures reply == (if technique.Some? then Done else Aborted(400))
      ensures reply != Done ==> mappings == old(mappings)
      ensures reply == Done ==> mappings == old(mappings)[id := Mapping(e, technique.value, file, entry)]
    {
      hide VaultOk, MappingOk;
      if technique.None? {
        return Aborted(400);
      }
      MappingAdded(State(), id, Mapping(e, technique.value, file, entry));
      mappings := mappings[id := Mapping(e, technique.value, file, entry)];
      return Done;
    }

    method MapTechniqueToLoot(id: nat, e: nat, file: nat, technique: Option<nat>) returns (reply: Reply)
      requires id !in mappings
      requires VaultOk(State())
      modifies this`mappings
      ensures (State(), reply) == MapLoot(old(State()), id, e, file, technique)
      ensures VaultOk(State())
      ensures reply == Done ==> VaultSteps.DeleteMapping(State(), id) == (old(State()), Done)
    {
      hide VaultOk, VaultSteps.DeleteMapping, MappingOk;
      ghost var v := State();
      if file !in loot || loot[file].engagement != e {
        return Aborted(404);
      }
      TargetsAreInOrder(State(), e, technique.GetOr(0), file);
      reply := CreateMapping(id, e, technique, Some(file), None);
      if reply == Done {
        assert VaultSteps.MapLoot(v, id, e, file, technique) == (State(), Done);
        LootMapped(v, id, e, file, technique);
      }
    }

    method MapTechniqueToEntry(id: nat, e: nat, entry: nat, technique: Option<nat>) returns (reply: Reply)
      requires id !in mappings
      requires VaultOk(State())
      modifies this`mappings
      ensures (State(), reply) == MapEntry(old(State()), id, e, entry, technique)
      ensures VaultOk(State())
      ensures reply == Done ==> VaultSteps.DeleteMapping(State(), id) == (old(State()), Done)
    {
      hide VaultOk, VaultSteps.DeleteMapping, MappingOk;
      ghost var v := State();
      if entry !in entries || entries[entry].engagement != e {
        return Aborted(404);
      }
      TargetsAreInOrder(State(), e, technique.GetOr(0), entry);
      reply := CreateMapping(id, e, technique, None, Some(entry));
      if reply == Done {
        assert VaultSteps.MapEntry(v, id, e, entry, technique) == (State(), Done);
        EntryMapped(v, id, e, entry, technique);
      }
    }

    method DeleteMapping(id: nat) returns (reply: Reply)
      requires VaultOk(State())
      modifies this`mappings
      ensures (State(), reply) == VaultSteps.DeleteMapping(old(State()), id)
      ensures VaultOk(State())
      ensures reply == Done ==> id in old(mappings) && id !in mappings
    {
      hide VaultOk;
      ghost var v := State();
      if id !in mappings {
        return Aborted(404);
      }
      mappings := mappings - {id};
      assert VaultSteps.DeleteMapping(v, id) == (State(), Done);
      MappingDeleted(v, id);
      return Done;
    }

    // ---------------------------------------------------------------- users

    /** The setup wizard: the first admin, and perhaps the first engagement. */
    method MakeFirstAdmin(id: nat, username: string, password: string, confirm: string, knownMode: bool,
                 engagement: Option<(nat, string)>, model: Option<string>)
      returns (reply: Reply)
      requires engagement.Some? ==> engagement.value.0 !in engagements
      modifies this`users, this`engagements
      ensures (State(), reply) ==
              VaultSteps.SetUp(old(State()), id, username, password, confirm, knownMode, engagement, model)
    {
      hide Strip;
      if |users| > 0 {
        return Flashed;
      }
      var given := ModelOf(model);
      if !GoodLogin(username, password) || password != confirm || !knownMode
         || (engagement.Some? && Strip(engagement.value.1) == "") || given !in KILL_CHAIN_MODELS {
        return Flashed;
      }
      users := map[id := User(Strip(username), ADMIN, true)];
      if engagement.Some? {
        var name := Strip(engagement.value.1);
        engagements := engagements[engagement.value.0 := Engagement(name, name, given)];
      }
      return Done;
    }

    method SetUp(id: nat, username: string, password: string, confirm: string, knownMode: bool,
                 engagement: Option<(nat, string)>, model: Option<string>)
      returns (reply: Reply)
      requires engagement.Some? ==> engagement.value.0 !in engagements
      requires VaultOk(State())
      modifies this`users, this`engagements
      ensures (State(), reply) ==
              VaultSteps.SetUp(old(State()), id, username, password, confirm, knownMode, engagement, model)
      ensures VaultOk(State())
      ensures reply == Done ==> old(users) == map[] && ActiveAdmin(State(), id)
    {
      hide VaultSteps.SetUp, VaultOk, ActiveAdmin, GoodLogin;
      ghost var v := State();
      reply := MakeFirstAdmin(id, username, password, confirm, knownMode, engagement, model);
      if reply == Done {
        assert VaultSteps.SetUp(v, id, username, password, confirm, knownMode, engagement, model) == (State(), Done);
        VaultSetUp(v, id, username, password, confirm, knownMode, engagement, model);
      }
    }

    method CreateUser(id: nat, actor: nat, username: string, password: string, role: string) returns (reply: Reply)
      requires id !in users
      requires VaultOk(State())
      modifies this`users
      ensures (State(), reply) == VaultSteps.CreateUser(old(State()), id, actor, username, password, role)
      ensures VaultOk(State())
      ensures reply == Done ==> IsActive(State(), id) && !old(UsernameTaken(State(), Strip(username))) && UsernameTaken(State(), Strip(username))
    {
      hide Strip, VaultOk;
      ghost var v := State();
      var gate := AdminGate(actor);
      if gate != Done {
        return gate;
      }
      var granted := role;
      if role !in USER_ROLES {
        granted := OPERATOR;
      }
      var name := Strip(username);
      if |name| < 3 {
        return Flashed;
      }
      if |password| < 8 {
        return Flashed;
      }
      if exists u <- users :: users[u].username == name {
        return Flashed;
      }
      users := users[id := User(name, granted, true)];
      assert VaultSteps.CreateUser(v, id, actor, username, password, role) == (State(), Done);
      UserCreated(v, id, actor, username, password, role);
      return Done;
    }

    /** `role_required_csrf("admin")` */
    method AdminGate(actor: nat) returns (reply: Reply)
      ensures reply == if MayAdminister(State(), actor) then Done else Denied(State(), actor)
    {
      if actor !in users || !users[actor].active {
        return Flashed;
      }
      if !IsAdmin(users[actor]) {
        return Aborted(403);
      }
      return Done;
    }

    /** `_other_active_admins_exist` */
    method CountOtherAdmins(user: nat) returns (some: bool)
      ensures some <==> OtherActiveAdminsExist(users, user)
    {
      var others := set u | u in users && u != user && IsAdmin(users[u]) && users[u].active;
      some := |others| > 0;
      if some {
        var u :| u in others;
        assert u in users;
      } else {
        assert forall u <- users :: u != user ==> u !in others;
      }
    }

    /** Stores a changed user, unless that takes the last active admin away. */
    method ChangeUser(user: nat, now: User) returns (reply: Reply)
      requires user in users
      modifies this`users
      ensures
        var last := IsAdmin(old(users)[user]) && !(IsAdmin(now) && now.active) && !OtherActiveAdminsExist(old(users), user);
        && reply == (if last then Flashed else Done)
        && users == if last then old(users) else old(users)[user := now]
    {
      hide OtherActiveAdminsExist;
      if IsAdmin(users[user]) && (!IsAdmin(now) || !now.active) {
        var others := CountOtherAdmins(user);
        if !others {
          return Flashed;
        }
      }
      users := users[user := now];
      return Done;
    }

    method EditUser(actor: nat, user: nat, role: Option<string>, active: bool) returns (reply: Reply)
      requires VaultOk(State())
      modifies this`users
      ensures (State(), reply) == VaultSteps.EditUser(old(State()), actor, user, role, active)
      ensures VaultOk(State())
      ensures reply == Done ==> InCharge(State())
    {
      hide OtherActiveAdminsExist, MayAdminister, Denied, IsAdmin, GrantedRole, VaultOk, InCharge;
      ghost var v := State();
      reply := AdminGate(actor);
      GateNeverPasses(State(), actor);
      if reply == Done {
        if user !in users {
          reply := Aborted(404);
        } else {
          var was := users[user];
          reply := ChangeUser(user, was.(role := GrantedRole(role, was.role), active := active));
        }
      }
      if reply == Done {
        assert VaultSteps.EditUser(v, actor, user, role, active) == (State(), Done);
        UserEdited(v, actor, user, role, active);
      }
    }

    method DeactivateUser(actor: nat, user: nat) returns (reply: Reply)
      requires VaultOk(State())
      modifies this`users
      ensures (State(), reply) == VaultSteps.DeactivateUser(old(State()), actor, user)
      ensures VaultOk(State())
      ensures reply == Done ==> user in users && !users[user].active && InCharge(State())
    {
      hide OtherActiveAdminsExist, MayAdminister, Denied, IsAdmin, VaultOk, InCharge;
      ghost var v := State();
      reply := AdminGate(actor);
      GateNeverPasses(State(), actor);
      if reply == Done {
        if user !in users {
          reply := Aborted(404);
        } else {
          reply := ChangeUser(user, users[user].(active := false));
        }
      }
      if reply == Done {
        assert VaultSteps.DeactivateUser(v, actor, user) == (State(), Done);
        UserDeactivated(v, actor, user);
      }
    }

    // ---------------------------------------------------------------- deleting an engagement

    method RequestDeletion(actor: nat, e: nat) returns (reply: Reply)
      requires VaultOk(State())
      modifies this`requests
      ensures (State(), reply) == VaultSteps.RequestDeletion(old(State()), actor, e)
      ensures VaultOk(State())
      ensures reply == Done ==> VaultSteps.CancelDeletion(State(), actor, e) == (old(State()), Done)
    {
      hide MayAdminister, Denied, VaultOk, VaultSteps.CancelDeletion;
      ghost var v := State();
      var gate := AdminGate(actor);
      GateNeverPasses(State(), actor);
      if gate != Done {
        return gate;
      }
      if e !in engagements {
        return Aborted(404);
      }
      if e in requests {
        return Flashed;
      }
      requests := requests[e := actor];
      assert VaultSteps.RequestDeletion(v, actor, e) == (State(), Done);
      DeletionRequested(v, actor, e);
      return Done;
    }

    method CancelDeletion(actor: nat, e: nat) returns (reply: Reply)
      requires VaultOk(State())
      modifies this`requests
      ensures (State(), reply) == VaultSteps.CancelDeletion(old(State()), actor, e)
      ensures VaultOk(State())
    {
      hide MayAdminister, Denied, VaultOk;
      ghost var v := State();
      var gate := AdminGate(actor);
      GateNeverPasses(State(), actor);
      if gate != Done {
        return gate;
      }
      if e !in engagements {
        return Aborted(404);
      }
      if e !in requests {
        return Flashed;
      }
      requests := requests - {e};
      assert VaultSteps.CancelDeletion(v, actor, e) == (State(), Done);
      DeletionCancelled(v, actor, e);
      return Done;
    }

    method ApproveDeletion(actor: nat, e: nat, elsewhere: bool) returns (reply: Reply)
      requires VaultOk(State())
      modifies this
      ensures (State(), reply) == VaultSteps.ApproveDeletion(old(State()), actor, e, elsewhere)
      ensures VaultOk(State())
      ensures reply == Done ==> EngagementIsGone(State(), e)
    {
      hide WithoutEngagement, VaultOk, EngagementIsGone;
      ghost var v := State();
      if actor !in users || !users[actor].active {
        return Flashed;
      }
      if users[actor].role == BLUETEAM {
        return Aborted(403);
      }
      if e !in engagements {
        return Aborted(404);
      }
      if e !in requests {
        return Flashed;
      }
      if users[actor].role != ADMIN && users[actor].role != OPERATOR {
        return Aborted(403);
      }
      if actor == requests[e] {
        return Flashed;
      }
      if elsewhere {
        return Aborted(500);
      }
      DeleteWithChildren(e);
      assert VaultSteps.ApproveDeletion(v, actor, e, elsewhere) == (State(), Done);
      DeletionApproved(v, actor, e, elsewhere);
      return Done;
    }

    /** `db.session.delete(engagement)`: rows go before the rows they refer to. */
    method DeleteWithChildren(e: nat)
      modifies this
      ensures State() == WithoutEngagement(old(State()), e)
    {
      hide NodesOutside, EdgesOutside, LootOutside, OwnedOutside, EntriesOutside, FindingsOutside, MappingsOutside;
      ghost var v := State();
      mappings := MappingsOutside(mappings, loot, entries, e);
      edges := EdgesOutside(edges, nodes, e);
      assert State() == v.(mappings := MappingsOutside(v.mappings, v.loot, v.entries, e),
                           edges := EdgesOutside(v.edges, v.nodes, e));
      DeleteRows(e);
      assert State() == WithoutEngagement(v, e);
    }

    method DeleteRows(e: nat)
      modifies this`findings, this`entries, this`iocs, this`credentials, this`loot, this`nodes, this`requests, this`engagements
      ensures findings == FindingsOutside(old(findings), e) && entries == EntriesOutside(old(entries), e)
      ensures iocs == OwnedOutside(old(iocs), e) && credentials == OwnedOutside(old(credentials), e)
      ensures loot == LootOutside(old(loot), e) && nodes == NodesOutside(old(nodes), e)
      ensures requests == old(requests) - {e} && engagements == old(engagements) - {e}
    {
      hide NodesOutside, LootOutside, OwnedOutside, EntriesOutside, FindingsOutside;
      findings := FindingsOutside(findings, e);
      entries := EntriesOutside(entries, e);
      iocs := OwnedOutside(iocs, e);
      credentials := OwnedOutside(credentials, e);
      loot := LootOutside(loot, e);
      nodes := NodesOutside(nodes, e);
      requests := requests - {e};
      engagements := engagements - {e};
    }
  }

  lemma GateNeverPasses(v: Vault, actor: nat)
    ensures Denied(v, actor) != Done
  {
  }
}
