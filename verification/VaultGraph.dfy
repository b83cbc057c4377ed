/** The graph stays well formed: edges join distinct nodes of one engagement and one pane. */
module VaultGraph {
  import opened Wrappers
  import opened Text
  import opened VaultState
  import opened VaultSteps
  import opened VaultMachine

  // ---------------------------------------------------------------- the graph

  lemma GraphFrame(v: Vault, v': Vault)
    requires GraphOk(v) && v'.nodes == v.nodes && v'.edges == v.edges && v.engagements.Keys <= v'.engagements.Keys
    ensures GraphOk(v')
  {
  }

  lemma AddNode(v: Vault, id: nat, n: Node)
    requires GraphOk(v) && id !in v.nodes && NodeOk(v.engagements.Keys, n)
    ensures GraphOk(v.(nodes := v.nodes[id := n]))
  {
    hide NodeOk;
  }

  lemma HealthyFits(pane: Pane)
    ensures StatusFits(pane, Some("healthy"))
    ensures TypeFits(pane, "hostname") && TypeFits(pane, "ip_address")
    ensures RoleFits(Targets, Some("target")) && PaneOf(Some("target")) == Targets
  {
    assert "healthy" in TARGET_STATUSES && "healthy" in INFRA_STATUSES;
  }

  lemma RoleDecidesPane(pane: Pane, role: Option<string>)
    requires RoleFits(pane, role)
    ensures PaneOf(role) == pane
  {
    if pane == Infrastructure && role.Some? {
      AttackersAreNoTargets(role.value);
    }
  }

  lemma AttackersAreNoTargets(role: string)
    requires role in ATTACKER_ROLES
    ensures role !in TARGET_ROLES
  {
    assert role[0] != 't' || role[1] == 'e';
    assert role[0] != 'v';
  }

  lemma NewNodeOk(engagements: set<nat>, pane: Pane, e: nat, nodeType: Option<string>, name: Option<string>,
                  role: Option<string>, status: Option<string>)
    requires e in engagements && NodeFits(pane, nodeType, name, role, status)
    ensures NodeOk(engagements, NewNode(e, nodeType, name, role, status))
    ensures PaneOf(NewNode(e, nodeType, name, role, status).role) == pane
  {
    hide RoleFits, StatusFits, TypeFits, PaneOf, Strip;
    HealthyFits(pane);
    RoleDecidesPane(pane, OrNone(role));
  }

  lemma CreateNodeGraph(v: Vault, id: nat, pane: Pane, e: nat, nodeType: Option<string>, name: Option<string>,
                        role: Option<string>, status: Option<string>)
    requires GraphOk(v) && id !in v.nodes
    ensures GraphOk(CreateNode(v, id, pane, e, nodeType, name, role, status).0)
  {
    hide NodeFits, NewNode, NodeOk, PaneOf, GraphOk;
    if e in v.engagements && NodeFits(pane, nodeType, name, role, status) {
      NewNodeOk(v.engagements.Keys, pane, e, nodeType, name, role, status);
      AddNode(v, id, NewNode(e, nodeType, name, role, status));
    }
  }

  /** Changing a node on its own pane disturbs no edge. */
  lemma ChangeNode(v: Vault, id: nat, n: Node)
    requires GraphOk(v) && id in v.nodes && NodeOk(v.engagements.Keys, n)
    requires n.engagement == v.nodes[id].engagement && PaneOf(n.role) == PaneOf(v.nodes[id].role)
    ensures GraphOk(v.(nodes := v.nodes[id := n]))
  {
    hide NodeOk, PaneOf;
    var v' := v.(nodes := v.nodes[id := n]);
    forall i | i in v'.edges ensures EdgeOk(v'.nodes, v'.edges[i]) {
      assert EdgeOk(v.nodes, v.edges[i]);
    }
  }

  lemma PatchedOk(engagements: set<nat>, n: Node, patch: NodePatch)
    requires NodeOk(engagements, n) && PatchFits(PaneOf(n.role), patch)
    ensures NodeOk(engagements, Patched(n, patch))
    ensures PaneOf(Patched(n, patch).role) == PaneOf(n.role) && Patched(n, patch).engagement == n.engagement
  {
    hide RoleFits, StatusFits, TypeFits, PaneOf, Strip;
    RoleDecidesPane(PaneOf(n.role), Patched(n, patch).role);
  }

  lemma UpdateNodeGraph(v: Vault, pane: Pane, e: nat, id: nat, patch: NodePatch)
    requires GraphOk(v)
    ensures GraphOk(UpdateNode(v, pane, e, id, patch).0)
  {
    hide NodeOk, PaneOf, PatchFits, Patched, EdgeOk;
    if HasNode(v, pane, e, id) && PatchFits(pane, patch) {
      PatchedOk(v.engagements.Keys, v.nodes[id], patch);
      ChangeNode(v, id, Patched(v.nodes[id], patch));
    }
  }

  lemma WithoutNodeGraph(v: Vault, id: nat)
    requires GraphOk(v)
    ensures GraphOk(WithoutNode(v, id))
  {
    hide NodeOk, PaneOf;
    var v' := WithoutNode(v, id);
    forall i | i in v'.edges ensures EdgeOk(v'.nodes, v'.edges[i]) {
      assert EdgeOk(v.nodes, v.edges[i]);
    }
  }

  lemma ResolveOriginGraph(v: Vault, id: nat, e: nat, origin: string, isIp: bool)
    requires GraphOk(v) && id !in v.nodes && e in v.engagements
    ensures GraphOk(ResolveOrigin(v, id, e, origin, isIp).0)
  {
    hide RoleFits, StatusFits, TypeFits, PaneOf, Strip, GraphOk, NamedIn;
    var host := Strip(origin);
    HealthyFits(Targets);
    if host != "" && !NamedIn(v, e, host) {
      AddNode(v, id, Node(e, if isIp then "ip_address" else "hostname", host, Some("target"), Some("healthy")));
    }
  }

  lemma PutEdge(v: Vault, id: nat, pane: Pane, e: nat, source: Option<nat>, target: Option<nat>)
    requires GraphOk(v) && EdgeResolves(v, pane, e, source, target)
    ensures GraphOk(v.(edges := v.edges[id := Edge(e, source.value, target.value)]))
  {
    hide NodeOk, PaneOf;
  }

  lemma CreateEdgeGraph(v: Vault, id: nat, pane: Pane, e: nat, source: Option<nat>, target: Option<nat>)
    requires GraphOk(v) && id !in v.edges
    ensures GraphOk(CreateEdge(v, id, pane, e, source, target).0)
  {
    hide GraphOk, EdgeResolves;
    if EdgeResolves(v, pane, e, source, target) {
      PutEdge(v, id, pane, e, source, target);
    }
  }

  lemma UpdateEdgeGraph(v: Vault, pane: Pane, e: nat, id: nat, source: Option<Option<nat>>, target: Option<Option<nat>>)
    requires GraphOk(v)
    ensures GraphOk(UpdateEdge(v, pane, e, id, source, target).0)
  {
    hide GraphOk, EdgeResolves, OnPane;
    if id in v.edges {
      var s, t := source.GetOr(Some(v.edges[id].source)), target.GetOr(Some(v.edges[id].target));
      if EdgeResolves(v, pane, e, s, t) {
        PutEdge(v, id, pane, e, s, t);
      }
    }
  }

  lemma WithoutEngagementGraph(v: Vault, e: nat)
    requires GraphOk(v)
    ensures GraphOk(WithoutEngagement(v, e))
  {
    hide PaneOf, RoleFits, StatusFits, TypeFits, TargetIn;
    var v' := WithoutEngagement(v, e);
    forall i | i in v'.nodes ensures NodeOk(v'.engagements.Keys, v'.nodes[i]) {
      assert NodeOk(v.engagements.Keys, v.nodes[i]);
    }
    forall i | i in v'.edges ensures EdgeOk(v'.nodes, v'.edges[i]) {
      assert EdgeOk(v.nodes, v.edges[i]);
    }
  }

  // ---------------------------------------------------------------- every step

  lemma UploadLootGraph(v: Vault, id: nat, nodeId: nat, e: nat, uploaded: bool, knownCategory: bool, host: string, isIp: bool)
    requires GraphOk(v) && id !in v.loot && nodeId !in v.nodes
    ensures GraphOk(UploadLoot(v, id, nodeId, e, uploaded, knownCategory, host, isIp).0)
  {
    hide GraphOk, ResolveOrigin;
    if e in v.engagements && uploaded && knownCategory {
      ResolveOriginGraph(v, nodeId, e, host, isIp);
      GraphFrame(ResolveOrigin(v, nodeId, e, host, isIp).0,
                 UploadLoot(v, id, nodeId, e, uploaded, knownCategory, host, isIp).0);
    }
  }

  lemma UpdateLootGraph(v: Vault, nodeId: nat, e: nat, id: nat, knownCategory: bool, host: Option<string>, isIp: bool)
    requires GraphOk(v) && LinksOk(v) && nodeId !in v.nodes
    ensures GraphOk(UpdateLoot(v, nodeId, e, id, knownCategory, host, isIp).0)
  {
    hide GraphOk, LinksOk, ResolveOrigin;
    if id in v.loot && v.loot[id].engagement == e && knownCategory && host.Some? {
      LootHasEngagement(v, id);
      ResolveOriginGraph(v, nodeId, e, host.value, isIp);
      GraphFrame(ResolveOrigin(v, nodeId, e, host.value, isIp).0, UpdateLoot(v, nodeId, e, id, knownCategory, host, isIp).0);
    }
  }

  lemma LootStepsGraph(v: Vault, op: LootOp)
    requires GraphOk(v) && LinksOk(v) && LootEnabled(v, op)
    ensures GraphOk(ApplyLoot(v, op).0)
  {
    hide GraphOk, LinksOk, UploadLoot, UpdateLoot, DeleteLoot, CreateCredential, DeleteCredential, CreateIoc, DeleteIoc;
    match op {
      case OpUploadLoot(id, nodeId, e, uploaded, knownCategory, host, isIp) =>
        UploadLootGraph(v, id, nodeId, e, uploaded, knownCategory, host, isIp);
      case OpUpdateLoot(nodeId, e, id, knownCategory, host, isIp) =>
        UpdateLootGraph(v, nodeId, e, id, knownCategory, host, isIp);
      case _ =>
        GraphFrame(v, ApplyLoot(v, op).0);
    }
  }

  lemma LootHasEngagement(v: Vault, id: nat)
    requires LinksOk(v) && id in v.loot
    ensures v.loot[id].engagement in v.engagements
  {
  }

  lemma GraphStepsGraph(v: Vault, op: GraphOp)
    requires GraphOk(v) && GraphEnabled(v, op)
    ensures GraphOk(ApplyGraph(v, op).0)
  {
    hide GraphOk, CreateNode, UpdateNode, WithoutNode, CreateEdge, UpdateEdge;
    match op {
      case OpCreateNode(id, pane, e, nodeType, name, role, status) =>
        CreateNodeGraph(v, id, pane, e, nodeType, name, role, status);
      case OpUpdateNode(pane, e, id, patch) =>
        UpdateNodeGraph(v, pane, e, id, patch);
      case OpDeleteNode(pane, e, id) =>
        WithoutNodeGraph(v, id);
      case OpCreateEdge(id, pane, e, source, target) =>
        CreateEdgeGraph(v, id, pane, e, source, target);
      case OpUpdateEdge(pane, e, id, source, target) =>
        UpdateEdgeGraph(v, pane, e, id, source, target);
      case OpDeleteEdge(e, id) =>
        WithoutEdgeGraph(v, id);
    }
  }

  lemma WithoutEdgeGraph(v: Vault, id: nat)
    requires GraphOk(v)
    ensures GraphOk(v.(edges := v.edges - {id}))
  {
    hide NodeOk, EdgeOk;
  }

  /** Editing engagements removes none. */
  lemma EngagementsStay(v: Vault, op: EngagementOp)
    requires EngagementEnabled(v, op) && !op.OpApproveDeletion?
    ensures var v' := ApplyEngagement(v, op).0; v' == v.(engagements := v'.engagements, requests := v'.requests)
    ensures v.engagements.Keys <= ApplyEngagement(v, op).0.engagements.Keys
  {
    hide HasEntries, Strip, StrOrNone, ActiveAdmin, MayAdminister, Denied;
  }

  lemma EngagementStepsGraph(v: Vault, op: EngagementOp)
    requires GraphOk(v) && EngagementEnabled(v, op)
    ensures GraphOk(ApplyEngagement(v, op).0)
  {
    hide GraphOk, CreateEngagement, UpdateEngagement, EditEngagement, RequestDeletion, CancelDeletion, WithoutEngagement;
    hide IsActive;
    if op.OpApproveDeletion? {
      WithoutEngagementGraph(v, op.e);
    } else {
      EngagementsStay(v, op);
      GraphFrame(v, ApplyEngagement(v, op).0);
    }
  }

  lemma UserStepsGraph(v: Vault, op: UserOp)
    requires GraphOk(v) && UserEnabled(v, op)
    ensures GraphOk(ApplyUser(v, op).0)
  {
    hide GraphOk, CreateUser, EditUser, DeactivateUser, Strip, GoodLogin;
    GraphFrame(v, ApplyUser(v, op).0);
  }

  lemma RecordStepsGraph(v: Vault, op: RecordOp)
    requires GraphOk(v) && RecordEnabled(v, op)
    ensures GraphOk(ApplyRecord(v, op).0)
  {
    hide GraphOk, ApplyRecord;
    GraphFrame(v, ApplyRecord(v, op).0);
  }

  lemma GraphKept(v: Vault, op: Op)
    requires GraphOk(v) && LinksOk(v) && Enabled(v, op)
    ensures GraphOk(Apply(v, op).0)
  {
    hide GraphOk, LinksOk, ApplyUser, ApplyEngagement, ApplyGraph, ApplyLoot, ApplyRecord;
    hide UserEnabled, EngagementEnabled, GraphEnabled, LootEnabled, RecordEnabled;
    match op {
      case OfUsers(o) => UserStepsGraph(v, o);
      case OfEngagements(o) => EngagementStepsGraph(v, o);
      case OfGraph(o) => GraphStepsGraph(v, o);
      case OfLoot(o) => LootStepsGraph(v, o);
      case OfRecords(o) => RecordStepsGraph(v, o);
    }
  }

  // ---------------------------------------------------------------- nodes stay where they are

  /** A node that is still there belongs to the same engagement and pane as before. */
  predicate NodeStays(before: map<nat, Node>, after: map<nat, Node>, id: nat) {
    id in before && id in after ==>
      after[id].engagement == before[id].engagement && PaneOf(after[id].role) == PaneOf(before[id].role)
  }

  lemma UpdateNodeStays(v: Vault, pane: Pane, e: nat, at: nat, patch: NodePatch, id: nat)
    ensures NodeStays(v.nodes, UpdateNode(v, pane, e, at, patch).0.nodes, id)
  {
    hide RoleFits, StatusFits, TypeFits, PaneOf, Strip;
    if patch.role.Some? && RoleFits(pane, OrNone(patch.role.value)) {
      RoleDecidesPane(pane, OrNone(patch.role.value));
    }
  }

  lemma NodesStay(v: Vault, op: Op, id: nat)
    requires Enabled(v, op)
    ensures NodeStays(v.nodes, Apply(v, op).0.nodes, id)
  {
    hide PaneOf;
    hide ApplyUser, ApplyRecord, UserEnabled, RecordEnabled;
    match op {
      case OfGraph(o) => GraphOpStays(v, o, id);
      case OfLoot(o) => LootOpStays(v, o, id);
      case OfEngagements(o) => EngagementOpStays(v, o, id);
      case _ =>
    }
  }

  lemma GraphOpStays(v: Vault, op: GraphOp, id: nat)
    requires GraphEnabled(v, op)
    ensures NodeStays(v.nodes, ApplyGraph(v, op).0.nodes, id)
  {
    hide PaneOf, RoleFits, StatusFits, TypeFits, Strip, UpdateNode, CreateEdge, UpdateEdge, DeleteEdge;
    match op {
      case OpUpdateNode(pane, e, at, patch) => UpdateNodeStays(v, pane, e, at, patch, id);
      case _ =>
    }
  }

  lemma LootOpStays(v: Vault, op: LootOp, id: nat)
    requires LootEnabled(v, op)
    ensures NodeStays(v.nodes, ApplyLoot(v, op).0.nodes, id)
  {
    hide PaneOf, ResolveOrigin, DeleteLoot, CreateCredential, DeleteCredential, CreateIoc, DeleteIoc;
  }

  lemma EngagementOpStays(v: Vault, op: EngagementOp, id: nat)
    requires EngagementEnabled(v, op)
    ensures NodeStays(v.nodes, ApplyEngagement(v, op).0.nodes, id)
  {
    hide PaneOf, CreateEngagement, UpdateEngagement, EditEngagement, RequestDeletion, CancelDeletion, TargetIn;
  }

  // ---------------------------------------------------------------- what a reader gets from it

  /** The edge lists of the two panes split an engagement's edges. */
  lemma PanesPartitionEdges(v: Vault, e: nat)
    requires GraphOk(v)
    ensures ListEdges(v, Infrastructure, e) + ListEdges(v, Targets, e) == set id | id in v.edges && v.edges[id].engagement == e
    ensures ListEdges(v, Infrastructure, e) !! ListEdges(v, Targets, e)
  {
    hide PaneOf, NodeOk;
    forall id | id in v.edges && v.edges[id].engagement == e
      ensures id in ListEdges(v, Infrastructure, e) + ListEdges(v, Targets, e)
    {
      assert EdgeOk(v.nodes, v.edges[id]);
    }
  }
}
