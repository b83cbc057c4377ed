/** The vault's tables, and what each row owes the others. */
module VaultState {
  import opened Wrappers
  import opened Text

  // ---------------------------------------------------------------- rows

  datatype Engagement = Engagement(name: string, client: string, model: string)

  datatype User = User(username: string, role: string, active: bool)

  datatype Node = Node(engagement: nat, nodeType: string, name: string, role: Option<string>, status: Option<string>)

  datatype Edge = Edge(engagement: nat, source: nat, target: nat)

  /** An entry's times are clock readings: the columns keep no UTC offset. */
  datatype Entry = Entry(engagement: nat, stage: string, title: string, startedAt: Option<int>, endedAt: Option<int>,
                         createdAt: int, loot: set<nat>)

  datatype LootFile = LootFile(engagement: nat, host: Option<string>)

  datatype Finding = Finding(engagement: nat, title: string, severity: string, links: Links)

  /** The five collections a finding is linked to. */
  datatype Links = Links(loot: set<nat>, nodes: set<nat>, credentials: set<nat>, iocs: set<nat>, entries: set<nat>)

  datatype Mapping = Mapping(engagement: nat, technique: nat, lootFile: Option<nat>, entry: Option<nat>)

  /** Tables by primary key; credentials and IOCs are kept as the engagement they belong to, requests as who made them. */
  datatype Vault = Vault(
    users: map<nat, User>,
    engagements: map<nat, Engagement>,
    requests: map<nat, nat>,
    nodes: map<nat, Node>,
    edges: map<nat, Edge>,
    loot: map<nat, LootFile>,
    credentials: map<nat, nat>,
    iocs: map<nat, nat>,
    entries: map<nat, Entry>,
    findings: map<nat, Finding>,
    mappings: map<nat, Mapping>)

  const EMPTY := Vault(map[], map[], map[], map[], map[], map[], map[], map[], map[], map[], map[])

  // ---------------------------------------------------------------- choices

  const NODE_TYPES: set<string> := {"hostname", "ip_address", "domain", "region", "cloud_provider"}
  const TARGET_NODE_TYPES: set<string> := NODE_TYPES + {
    "file_share", "cloud_storage", "database", "wiki", "source_control", "ticketing", "collaboration", "backup_system"}
  const TARGET_ROLES: set<string> := {"target", "victim"}
  const ATTACKER_ROLES: set<string> := {"redirector", "team_server", "pivot", "proxy", "C2", "OSINT", "other"}
  const TARGET_STATUSES: set<string> := {"healthy", "isolated", "dead"}
  const INFRA_STATUSES: set<string> := {"healthy", "burned"}
  const SEVERITIES: set<string> := {"critical", "high", "medium", "low", "informational"}

  const LMCKC := "lmckc"
  const UKC := "ukc"
  const KILL_CHAIN_MODELS: set<string> := {LMCKC, UKC}

  const STAGES_LMCKC := [
    "reconnaissance", "weaponization", "delivery", "exploitation", "installation", "command_and_control",
    "actions_on_objectives"]
  const STAGES_UKC := [
    "reconnaissance", "weaponization", "delivery", "social_engineering", "exploitation", "persistence",
    "defense_evasion", "command_and_control", "pivoting", "discovery", "privilege_escalation", "execution",
    "credential_access", "lateral_movement", "collection", "exfiltration", "impact", "objectives"]

  /** `stages_for_model`: an unknown model falls back to Lockheed Martin's. */
  function StagesFor(model: string): seq<string> {
    if model == UKC then STAGES_UKC else STAGES_LMCKC
  }

  const ADMIN := "admin"
  const OPERATOR := "operator"
  const BLUETEAM := "blueteam"
  const USER_ROLES: set<string> := {OPERATOR, ADMIN, "agent", BLUETEAM}

  // ---------------------------------------------------------------- the graph

  /** Which of the two panes a node lives on. */
  datatype Pane = Infrastructure | Targets

  function PaneOf(role: Option<string>): Pane {
    if role.Some? && role.value in TARGET_ROLES then Targets else Infrastructure
  }

  predicate RoleFits(pane: Pane, role: Option<string>) {
    match pane
    case Infrastructure => role.Some? ==> role.value in ATTACKER_ROLES
    case Targets => role.Some? && role.value in TARGET_ROLES
  }

  predicate StatusFits(pane: Pane, status: Option<string>) {
    status.Some? ==> status.value in (if pane == Targets then TARGET_STATUSES else INFRA_STATUSES)
  }

  predicate TypeFits(pane: Pane, nodeType: string) {
    nodeType in (if pane == Targets then TARGET_NODE_TYPES else NODE_TYPES)
  }

  predicate NodeOk(engagements: set<nat>, n: Node) {
    var pane := PaneOf(n.role);
    n.engagement in engagements && RoleFits(pane, n.role) && StatusFits(pane, n.status) && TypeFits(pane, n.nodeType)
  }

  /** An edge joins two different nodes of its own engagement, both on the same pane. */
  predicate EdgeOk(nodes: map<nat, Node>, e: Edge) {
    && e.source in nodes && e.target in nodes && e.source != e.target
    && nodes[e.source].engagement == e.engagement && nodes[e.target].engagement == e.engagement
    && PaneOf(nodes[e.source].role) == PaneOf(nodes[e.target].role)
  }

  predicate GraphOk(v: Vault) {
    && (forall id <- v.nodes :: NodeOk(v.engagements.Keys, v.nodes[id]))
    && (forall id <- v.edges :: EdgeOk(v.nodes, v.edges[id]))
  }

  // ---------------------------------------------------------------- the kill chain

  /** The entry's stage is one of its engagement's model. */
  predicate EntryOk(engagements: map<nat, Engagement>, e: Entry) {
    && e.engagement in engagements
    && e.stage in StagesFor(engagements[e.engagement].model)
  }

  predicate KillChainOk(v: Vault) {
    && (forall id <- v.engagements :: v.engagements[id].model in KILL_CHAIN_MODELS)
    && (forall id <- v.entries :: EntryOk(v.engagements, v.entries[id]))
  }

  // ---------------------------------------------------------------- links

  function LootOf(v: Vault, e: nat): set<nat> {
    set i | i in v.loot && v.loot[i].engagement == e
  }

  function NodesOf(v: Vault, e: nat): set<nat> {
    set i | i in v.nodes && v.nodes[i].engagement == e
  }

  function CredentialsOf(v: Vault, e: nat): set<nat> {
    set i | i in v.credentials && v.credentials[i] == e
  }

  function IocsOf(v: Vault, e: nat): set<nat> {
    set i | i in v.iocs && v.iocs[i] == e
  }

  function EntriesOf(v: Vault, e: nat): set<nat> {
    set i | i in v.entries && v.entries[i].engagement == e
  }

  /** Everything a finding is linked to exists in the finding's own engagement. */
  predicate FindingOk(v: Vault, f: Finding) {
    && f.engagement in v.engagements
    && f.links.loot <= LootOf(v, f.engagement)
    && f.links.nodes <= NodesOf(v, f.engagement)
    && f.links.credentials <= CredentialsOf(v, f.engagement)
    && f.links.iocs <= IocsOf(v, f.engagement)
    && f.links.entries <= EntriesOf(v, f.engagement)
  }

  predicate EntryLinksOk(v: Vault, e: Entry) {
    e.engagement in v.engagements && e.loot <= LootOf(v, e.engagement)
  }

  /** A mapping has exactly one target, which exists in the mapping's engagement. */
  predicate MappingOk(v: Vault, m: Mapping) {
    && m.engagement in v.engagements
    && m.lootFile.Some? != m.entry.Some?
    && (m.lootFile.Some? ==> m.lootFile.value in LootOf(v, m.engagement))
    && (m.entry.Some? ==> m.entry.value in EntriesOf(v, m.engagement))
  }

  predicate LinksOk(v: Vault) {
    && (forall id <- v.loot :: v.loot[id].engagement in v.engagements)
    && (forall id <- v.credentials :: v.credentials[id] in v.engagements)
    && (forall id <- v.iocs :: v.iocs[id] in v.engagements)
    && (forall id <- v.findings :: FindingOk(v, v.findings[id]))
    && (forall id <- v.entries :: EntryLinksOk(v, v.entries[id]))
    && (forall id <- v.mappings :: MappingOk(v, v.mappings[id]))
  }

  // ---------------------------------------------------------------- governance

  predicate IsActive(v: Vault, user: nat) {
    user in v.users && v.users[user].active
  }

  predicate IsAdmin(u: User) {
    u.role == ADMIN
  }

  predicate ActiveAdmin(v: Vault, user: nat) {
    IsActive(v, user) && IsAdmin(v.users[user])
  }

  /** Set up means some user exists; from then on an active admin does. */
  predicate UsersOk(v: Vault) {
    && (v.users != map[] ==> exists u :: u in v.users && ActiveAdmin(v, u))
    && (forall u <- v.users :: v.users[u].role in USER_ROLES && |v.users[u].username| >= 3)
    && (forall a, b :: a in v.users && b in v.users && v.users[a].username == v.users[b].username ==> a == b)
  }

  predicate RequestsOk(v: Vault) {
    forall e <- v.requests :: e in v.engagements && v.requests[e] in v.users
  }

  predicate VaultOk(v: Vault) {
    GraphOk(v) && KillChainOk(v) && LinksOk(v) && UsersOk(v) && RequestsOk(v)
  }
}
