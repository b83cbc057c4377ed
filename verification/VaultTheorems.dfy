/** What holds in every vault any sequence of requests can produce. */
module VaultTheorems {
  import opened Wrappers
  import opened VaultState
  import opened VaultSteps
  import opened VaultMachine
  import opened VaultGraph
  import opened VaultKillChain
  import opened VaultLinks
  import opened VaultGovernance

  lemma StepKeeps(v: Vault, op: Op)
    requires VaultOk(v) && Enabled(v, op)
    ensures VaultOk(Apply(v, op).0)
  {
    hide Apply, Enabled, GraphOk, KillChainOk, LinksOk, UsersOk, RequestsOk;
    GraphKept(v, op);
    KillChainKept(v, op);
    LinksKept(v, op);
    UsersKept(v, op);
    RequestsKept(v, op);
  }

  // The same, one area of requests at a time, as the handlers need it.

  lemma UserStepKeeps(v: Vault, op: UserOp)
    requires VaultOk(v) && UserEnabled(v, op)
    ensures VaultOk(ApplyUser(v, op).0)
  {
    hide VaultOk, UserEnabled, ApplyUser;
    StepKeeps(v, OfUsers(op));
  }

  lemma EngagementStepKeeps(v: Vault, op: EngagementOp)
    requires VaultOk(v) && EngagementEnabled(v, op)
    ensures VaultOk(ApplyEngagement(v, op).0)
  {
    hide VaultOk, EngagementEnabled, ApplyEngagement;
    StepKeeps(v, OfEngagements(op));
  }

  lemma GraphStepKeeps(v: Vault, op: GraphOp)
    requires VaultOk(v) && GraphEnabled(v, op)
    ensures VaultOk(ApplyGraph(v, op).0)
  {
    hide VaultOk, GraphEnabled, ApplyGraph;
    StepKeeps(v, OfGraph(op));
  }

  lemma LootStepKeeps(v: Vault, op: LootOp)
    requires VaultOk(v) && LootEnabled(v, op)
    ensures VaultOk(ApplyLoot(v, op).0)
  {
    hide VaultOk, LootEnabled, ApplyLoot;
    StepKeeps(v, OfLoot(op));
  }

  lemma RecordStepKeeps(v: Vault, op: RecordOp)
    requires VaultOk(v) && RecordEnabled(v, op)
    ensures VaultOk(ApplyRecord(v, op).0)
  {
    hide VaultOk, RecordEnabled, ApplyRecord;
    StepKeeps(v, OfRecords(op));
  }

  /** Resolving an origin, as uploads and edits do, is in order by itself. */
  lemma ResolveOriginKeeps(v: Vault, id: nat, e: nat, origin: string, isIp: bool)
    requires VaultOk(v) && id !in v.nodes && e in v.engagements
    ensures VaultOk(ResolveOrigin(v, id, e, origin, isIp).0)
  {
    var v' := ResolveOrigin(v, id, e, origin, isIp).0;
    ResolveOriginGraph(v, id, e, origin, isIp);
    hide GraphOk, KillChainOk, LinksOk, UsersOk, ResolveOrigin;
    KillChainFrame(v, v');
    NodesChange(v, v');
    UsersFrame(v, v');
  }

  lemma {:induction false} RunKeeps(ops: seq<Op>, vaults: seq<Vault>, k: nat)
    requires IsRun(ops, vaults) && k < |vaults|
    ensures VaultOk(vaults[k])
  {
    hide Apply, Enabled, VaultOk;
    if k == 0 {
      EmptyOk();
    } else {
      RunKeeps(ops, vaults, k - 1);
      StepKeeps(vaults[k - 1], ops[k - 1]);
    }
  }

  lemma EmptyOk()
    ensures VaultOk(EMPTY)
  {
  }

  /** The graph, spelled out. */
  lemma EdgesJoinOnePane(ops: seq<Op>, vaults: seq<Vault>, k: nat, id: nat)
    requires IsRun(ops, vaults) && k < |vaults| && id in vaults[k].edges
    ensures var v, e := vaults[k], vaults[k].edges[id];
            && e.source in v.nodes && e.target in v.nodes && e.source != e.target
            && v.nodes[e.source].engagement == e.engagement == v.nodes[e.target].engagement
            && (OnPane(v, Infrastructure, e) <==> !OnPane(v, Targets, e))
            && (id in ListEdges(v, Infrastructure, e.engagement) <==> id !in ListEdges(v, Targets, e.engagement))
  {
    hide Apply, Enabled, IsRun, PaneOf, NodeOk, KillChainOk, LinksOk, UsersOk, RequestsOk;
    RunKeeps(ops, vaults, k);
    assert EdgeOk(vaults[k].nodes, vaults[k].edges[id]);
  }

  /** While a node exists it never changes pane or engagement. */
  lemma {:induction false} NodeNeverMoves(ops: seq<Op>, vaults: seq<Vault>, i: nat, k: nat, id: nat)
    requires IsRun(ops, vaults) && i <= k < |vaults|
    requires forall j :: i <= j <= k ==> id in vaults[j].nodes
    ensures vaults[k].nodes[id].engagement == vaults[i].nodes[id].engagement
    ensures PaneOf(vaults[k].nodes[id].role) == PaneOf(vaults[i].nodes[id].role)
    decreases k
  {
    hide Apply, Enabled, PaneOf;
    if i < k {
      NodeNeverMoves(ops, vaults, i, k - 1, id);
      NodesStay(vaults[k - 1], ops[k - 1], id);
    }
  }

  /** An entry's stage is one of its engagement's current model. */
  lemma EntriesFitTheirModel(ops: seq<Op>, vaults: seq<Vault>, k: nat, id: nat)
    requires IsRun(ops, vaults) && k < |vaults| && id in vaults[k].entries
    ensures var v, entry := vaults[k], vaults[k].entries[id];
            && entry.engagement in v.engagements
            && v.engagements[entry.engagement].model in KILL_CHAIN_MODELS
            && entry.stage in StagesFor(v.engagements[entry.engagement].model)
  {
    hide Apply, Enabled, IsRun, GraphOk, LinksOk, UsersOk, RequestsOk, StagesFor;
    RunKeeps(ops, vaults, k);
    assert EntryOk(vaults[k].engagements, vaults[k].entries[id]);
  }

  /** Everything a finding is linked to is in the finding's engagement. */
  lemma FindingsAreIsolated(ops: seq<Op>, vaults: seq<Vault>, k: nat, f: nat)
    requires IsRun(ops, vaults) && k < |vaults| && f in vaults[k].findings
    ensures var v, finding := vaults[k], vaults[k].findings[f];
            && (forall i <- finding.links.loot :: i in v.loot && v.loot[i].engagement == finding.engagement)
            && (forall i <- finding.links.nodes :: i in v.nodes && v.nodes[i].engagement == finding.engagement)
            && (forall i <- finding.links.credentials :: i in v.credentials && v.credentials[i] == finding.engagement)
            && (forall i <- finding.links.iocs :: i in v.iocs && v.iocs[i] == finding.engagement)
            && (forall i <- finding.links.entries :: i in v.entries && v.entries[i].engagement == finding.engagement)
  {
    hide Apply, Enabled, IsRun, GraphOk, KillChainOk, UsersOk, RequestsOk;
    RunKeeps(ops, vaults, k);
    assert FindingOk(vaults[k], vaults[k].findings[f]);
  }

  /** An entry's loot is in the entry's engagement. */
  lemma EntryLootIsIsolated(ops: seq<Op>, vaults: seq<Vault>, k: nat, id: nat)
    requires IsRun(ops, vaults) && k < |vaults| && id in vaults[k].entries
    ensures forall i <- vaults[k].entries[id].loot ::
              i in vaults[k].loot && vaults[k].loot[i].engagement == vaults[k].entries[id].engagement
  {
    hide Apply, Enabled, IsRun, GraphOk, KillChainOk, UsersOk, RequestsOk;
    RunKeeps(ops, vaults, k);
    assert EntryLinksOk(vaults[k], vaults[k].entries[id]);
  }

  /** A mapping has exactly one target, and it is in the mapping's engagement. */
  lemma MappingsAreIsolated(ops: seq<Op>, vaults: seq<Vault>, k: nat, id: nat)
    requires IsRun(ops, vaults) && k < |vaults| && id in vaults[k].mappings
    ensures var v, m := vaults[k], vaults[k].mappings[id];
            && m.lootFile.Some? != m.entry.Some?
            && (m.lootFile.Some? ==> m.lootFile.value in v.loot && v.loot[m.lootFile.value].engagement == m.engagement)
            && (m.entry.Some? ==> m.entry.value in v.entries && v.entries[m.entry.value].engagement == m.engagement)
  {
    hide Apply, Enabled, IsRun, GraphOk, KillChainOk, UsersOk, RequestsOk;
    RunKeeps(ops, vaults, k);
    assert MappingOk(vaults[k], vaults[k].mappings[id]);
  }

  /** Once the vault is set up there is an active admin, for good. */
  lemma {:induction false} SomeoneIsInCharge(ops: seq<Op>, vaults: seq<Vault>, j: nat, k: nat)
    requires IsRun(ops, vaults) && j <= k < |vaults| && vaults[j].users != map[]
    ensures exists u :: u in vaults[k].users && ActiveAdmin(vaults[k], u)
    decreases k
  {
    hide Apply, Enabled, GraphOk, KillChainOk, LinksOk, RequestsOk, ActiveAdmin;
    StaysSetUp(ops, vaults, j, k);
    RunKeeps(ops, vaults, k);
    assert UsersOk(vaults[k]);
  }

  lemma {:induction false} StaysSetUp(ops: seq<Op>, vaults: seq<Vault>, j: nat, k: nat)
    requires IsRun(ops, vaults) && j <= k < |vaults| && vaults[j].users != map[]
    ensures vaults[k].users != map[]
    decreases k
  {
    hide Apply, Enabled;
    if j < k {
      StaysSetUp(ops, vaults, j, k - 1);
      UsersStay(vaults[k - 1], ops[k - 1]);
      var u :| u in vaults[k - 1].users;
      assert u in vaults[k - 1].users.Keys;
      assert u in vaults[k].users.Keys;
    }
  }
}
