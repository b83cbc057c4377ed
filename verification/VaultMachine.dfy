/** The vault as one state machine: every request is a step, and a run is any sequence of them from an empty vault. */
module VaultMachine {
  import opened Wrappers
  import opened Times
  import opened VaultState
  import opened VaultSteps

  // Requests by area; the `id`s are the keys the database assigns.

  datatype UserOp =
    | OpSetUp(id: nat, username: string, password: string, confirm: string, knownMode: bool,
              engagement: Option<(nat, string)>, model: Option<string>)
    | OpCreateUser(id: nat, actor: nat, username: string, password: string, role: string)
    | OpEditUser(actor: nat, user: nat, newRole: Option<string>, active: bool)
    | OpDeactivateUser(actor: nat, user: nat)

  datatype EngagementOp =
    | OpCreateEngagement(id: nat, newName: Option<string>, newClient: Option<string>, model: Option<string>)
    | OpUpdateEngagement(e: nat, name: Field, client: Field, newModel: Field)
    | OpEditEngagement(e: nat, formName: string, formClient: string, model: Option<string>)
    | OpRequestDeletion(actor: nat, e: nat)
    | OpCancelDeletion(actor: nat, e: nat)
    | OpApproveDeletion(actor: nat, e: nat, elsewhere: bool)

  datatype GraphOp =
    | OpCreateNode(id: nat, pane: Pane, e: nat, nodeType: Option<string>, name: Option<string>, role: Option<string>,
                   status: Option<string>)
    | OpUpdateNode(pane: Pane, e: nat, id: nat, patch: NodePatch)
    | OpDeleteNode(pane: Pane, e: nat, id: nat)
    | OpCreateEdge(id: nat, pane: Pane, e: nat, source: Option<nat>, target: Option<nat>)
    | OpUpdateEdge(pane: Pane, e: nat, id: nat, newSource: Option<Option<nat>>, newTarget: Option<Option<nat>>)
    | OpDeleteEdge(e: nat, id: nat)

  datatype LootOp =
    | OpUploadLoot(id: nat, nodeId: nat, e: nat, uploaded: bool, knownCategory: bool, host: string, isIp: bool)
    | OpUpdateLoot(nodeId: nat, e: nat, id: nat, knownCategory: bool, newHost: Option<string>, isIp: bool)
    | OpDeleteLoot(e: nat, id: nat)
    | OpCreateCredential(id: nat, e: nat)
    | OpDeleteCredential(e: nat, id: nat)
    | OpCreateIoc(id: nat, e: nat)
    | OpDeleteIoc(e: nat, id: nat)

  datatype RecordOp =
    | OpCreateEntry(id: nat, e: nat, stage: Option<string>, title: Option<string>, startedAt: Option<Time>,
                    endedAt: Option<Time>, dialect: Dialect, createdAt: int, lootIds: Option<seq<nat>>)
    | OpUpdateEntry(e: nat, id: nat, patch: EntryPatch, dialect: Dialect)
    | OpDeleteEntry(e: nat, id: nat)
    | OpCreateFinding(id: nat, e: nat, title: Option<string>, severity: Option<string>, ids: LinkIds)
    | OpUpdateFinding(e: nat, id: nat, newTitle: Field, newSeverity: Field, newIds: Option<LinkIds>)
    | OpDeleteFinding(e: nat, id: nat)
    | OpMapLoot(id: nat, e: nat, file: nat, technique: Option<nat>)
    | OpMapEntry(id: nat, e: nat, entry: nat, technique: Option<nat>)
    | OpDeleteMapping(id: nat)

  datatype Op = OfUsers(users: UserOp) | OfEngagements(engagements: EngagementOp) | OfGraph(graph: GraphOp)
              | OfLoot(loot: LootOp) | OfRecords(records: RecordOp)

  // ---------------------------------------------------------------- steps

  /** The database only assigns keys not in use. */
  predicate UserEnabled(v: Vault, op: UserOp) {
    match op
    case OpSetUp(_, _, _, _, _, engagement, _) => engagement.Some? ==> engagement.value.0 !in v.engagements
    case OpCreateUser(id, _, _, _, _) => id !in v.users
    case _ => true
  }

  function ApplyUser(v: Vault, op: UserOp): (r: (Vault, Reply))
    requires UserEnabled(v, op)
    ensures r.1 != Done ==> r.0 == v
    ensures r.0 == v.(users := r.0.users, engagements := r.0.engagements)
    ensures v.users.Keys <= r.0.users.Keys
  {
    match op
    case OpSetUp(id, username, password, confirm, knownMode, engagement, model) =>
      SetUp(v, id, username, password, confirm, knownMode, engagement, model)
    case OpCreateUser(id, actor, username, password, role) => CreateUser(v, id, actor, username, password, role)
    case OpEditUser(actor, user, role, active) => EditUser(v, actor, user, role, active)
    case OpDeactivateUser(actor, user) => DeactivateUser(v, actor, user)
  }

  predicate EngagementEnabled(v: Vault, op: EngagementOp) {
    op.OpCreateEngagement? ==> op.id !in v.engagements
  }

  function ApplyEngagement(v: Vault, op: EngagementOp): (r: (Vault, Reply))
    requires EngagementEnabled(v, op)
    ensures r.1 != Done ==> r.0 == v
  {
    match op
    case OpCreateEngagement(id, name, client, model) => CreateEngagement(v, id, name, client, model)
    case OpUpdateEngagement(e, name, client, model) => UpdateEngagement(v, e, name, client, model)
    case OpEditEngagement(e, name, client, model) => EditEngagement(v, e, name, client, model)
    case OpRequestDeletion(actor, e) => RequestDeletion(v, actor, e)
    case OpCancelDeletion(actor, e) => CancelDeletion(v, actor, e)
    case OpApproveDeletion(actor, e, elsewhere) => ApproveDeletion(v, actor, e, elsewhere)
  }

  predicate GraphEnabled(v: Vault, op: GraphOp) {
    (op.OpCreateNode? ==> op.id !in v.nodes) && (op.OpCreateEdge? ==> op.id !in v.edges)
  }

  function ApplyGraph(v: Vault, op: GraphOp): (r: (Vault, Reply))
    requires GraphEnabled(v, op)
    ensures r.1 != Done ==> r.0 == v
    ensures r.0 == v.(nodes := r.0.nodes, edges := r.0.edges, findings := r.0.findings)
  {
    match op
    case OpCreateNode(id, pane, e, nodeType, name, role, status) => CreateNode(v, id, pane, e, nodeType, name, role, status)
    case OpUpdateNode(pane, e, id, patch) => UpdateNode(v, pane, e, id, patch)
    case OpDeleteNode(pane, e, id) => DeleteNode(v, pane, e, id)
    case OpCreateEdge(id, pane, e, source, target) => CreateEdge(v, id, pane, e, source, target)
    case OpUpdateEdge(pane, e, id, source, target) => UpdateEdge(v, pane, e, id, source, target)
    case OpDeleteEdge(e, id) => DeleteEdge(v, e, id)
  }

  predicate LootEnabled(v: Vault, op: LootOp) {
    match op
    case OpUploadLoot(id, nodeId, _, _, _, _, _) => id !in v.loot && nodeId !in v.nodes
    case OpUpdateLoot(nodeId, _, _, _, _, _) => nodeId !in v.nodes
    case OpCreateCredential(id, _) => id !in v.credentials
    case OpCreateIoc(id, _) => id !in v.iocs
    case _ => true
  }

  function ApplyLoot(v: Vault, op: LootOp): (r: (Vault, Reply))
    requires LootEnabled(v, op)
    ensures r.1 != Done ==> r.0 == v
    ensures r.0 == v.(nodes := r.0.nodes, loot := r.0.loot, credentials := r.0.credentials, iocs := r.0.iocs,
                      findings := r.0.findings, mappings := r.0.mappings)
  {
    match op
    case OpUploadLoot(id, nodeId, e, uploaded, knownCategory, host, isIp) =>
      UploadLoot(v, id, nodeId, e, uploaded, knownCategory, host, isIp)
    case OpUpdateLoot(nodeId, e, id, knownCategory, host, isIp) => UpdateLoot(v, nodeId, e, id, knownCategory, host, isIp)
    case OpDeleteLoot(e, id) => DeleteLoot(v, e, id)
    case OpCreateCredential(id, e) => CreateCredential(v, id, e)
    case OpDeleteCredential(e, id) => DeleteCredential(v, e, id)
    case OpCreateIoc(id, e) => CreateIoc(v, id, e)
    case OpDeleteIoc(e, id) => DeleteIoc(v, e, id)
  }

  predicate RecordEnabled(v: Vault, op: RecordOp) {
    && (op.OpCreateEntry? ==> op.id !in v.entries)
    && (op.OpCreateFinding? ==> op.id !in v.findings)
    && (op.OpMapLoot? || op.OpMapEntry? ==> op.id !in v.mappings)
  }

  function ApplyRecord(v: Vault, op: RecordOp): (r: (Vault, Reply))
    requires RecordEnabled(v, op)
    ensures r.1 != Done ==> r.0 == v
    ensures r.0 == v.(entries := r.0.entries, findings := r.0.findings, mappings := r.0.mappings)
  {
    match op
    case OpCreateEntry(id, e, stage, title, startedAt, endedAt, dialect, createdAt, lootIds) =>
      CreateEntry(v, id, e, stage, title, startedAt, endedAt, dialect, createdAt, lootIds)
    case OpUpdateEntry(e, id, patch, dialect) => UpdateEntry(v, e, id, patch, dialect)
    case OpDeleteEntry(e, id) => DeleteEntry(v, e, id)
    case OpCreateFinding(id, e, title, severity, ids) => CreateFinding(v, id, e, title, severity, ids)
    case OpUpdateFinding(e, id, title, severity, ids) => UpdateFinding(v, e, id, title, severity, ids)
    case OpDeleteFinding(e, id) => DeleteFinding(v, e, id)
    case OpMapLoot(id, e, file, technique) => MapLoot(v, id, e, file, technique)
    case OpMapEntry(id, e, entry, technique) => MapEntry(v, id, e, entry, technique)
    case OpDeleteMapping(id) => DeleteMapping(v, id)
  }

  predicate Enabled(v: Vault, op: Op) {
    match op
    case OfUsers(o) => UserEnabled(v, o)
    case OfEngagements(o) => EngagementEnabled(v, o)
    case OfGraph(o) => GraphEnabled(v, o)
    case OfLoot(o) => LootEnabled(v, o)
    case OfRecords(o) => RecordEnabled(v, o)
  }

  function Apply(v: Vault, op: Op): (r: (Vault, Reply))
    requires Enabled(v, op)
    ensures r.1 != Done ==> r.0 == v
  {
    match op
    case OfUsers(o) => ApplyUser(v, o)
    case OfEngagements(o) => ApplyEngagement(v, o)
    case OfGraph(o) => ApplyGraph(v, o)
    case OfLoot(o) => ApplyLoot(v, o)
    case OfRecords(o) => ApplyRecord(v, o)
  }

  /** `vaults` is what a vault goes through when it starts empty and serves `ops`. */
  predicate IsRun(ops: seq<Op>, vaults: seq<Vault>) {
    && |vaults| == |ops| + 1
    && vaults[0] == EMPTY
    && (forall i :: 0 <= i < |ops| ==> Enabled(vaults[i], ops[i]) && vaults[i + 1] == Apply(vaults[i], ops[i]).0)
  }
}
