/** Every request that changes the vault, as what it answers and the vault it leaves. */
module VaultSteps {
  import opened Wrappers
  import opened Text
  import opened Times
  import opened VaultState

  /** Committed, refused with a status code, or sent back with a message; only the first may change anything. */
  datatype Reply = Done | Aborted(code: int) | Flashed

  /** A field of a JSON body: missing, null, or a value. */
  type Field = Option<Option<string>>

  /** `str_or_none` */
  function StrOrNone(value: Option<string>): Option<string> {
    if value.None? || Strip(value.value) == "" then None else Some(Strip(value.value))
  }

  /** `value or None` */
  function OrNone(value: Option<string>): Option<string> {
    if value == Some("") then None else value
  }

  predicate Given(value: Option<string>) {
    OrNone(value).Some?
  }

  // ---------------------------------------------------------------- nodes

  predicate NodeFits(pane: Pane, nodeType: Option<string>, name: Option<string>, role: Option<string>,
                     status: Option<string>) {
    && Given(nodeType) && Given(name) && TypeFits(pane, nodeType.value)
    && RoleFits(pane, OrNone(role)) && StatusFits(pane, OrNone(status))
  }

  /** An unset status takes the column's default. */
  function NewNode(e: nat, nodeType: Option<string>, name: Option<string>, role: Option<string>, status: Option<string>)
    : (n: Node)
    ensures n.engagement == e && n.role == OrNone(role)
  {
    Node(e, nodeType.GetOr(""), Strip(name.GetOr("")), OrNone(role), Some(OrNone(status).GetOr("healthy")))
  }

  function CreateNode(v: Vault, id: nat, pane: Pane, e: nat, nodeType: Option<string>, name: Option<string>,
                      role: Option<string>, status: Option<string>): (r: (Vault, Reply))
    requires id !in v.nodes
    ensures r.1 != Done ==> r.0 == v
    ensures r.0 == v.(nodes := r.0.nodes)
    ensures forall i <- v.nodes :: i in r.0.nodes && r.0.nodes[i] == v.nodes[i]
  {
    if e !in v.engagements then (v, Aborted(404))
    else if !NodeFits(pane, nodeType, name, role, status) then (v, Aborted(400))
    else (v.(nodes := v.nodes[id := NewNode(e, nodeType, name, role, status)]), Done)
  }

  datatype NodePatch = NodePatch(nodeType: Field, name: Field, role: Field, status: Field)

  predicate PatchFits(pane: Pane, patch: NodePatch) {
    && (patch.nodeType.Some? ==> patch.nodeType.value.Some? && TypeFits(pane, patch.nodeType.value.value))
    && (patch.name.Some? ==> StrOrNone(patch.name.value).Some?)
    && (patch.role.Some? ==> RoleFits(pane, OrNone(patch.role.value)))
    && (patch.status.Some? ==> StatusFits(pane, OrNone(patch.status.value)))
  }

  function Patched(n: Node, patch: NodePatch): Node {
    n.(nodeType := patch.nodeType.GetOr(None).GetOr(n.nodeType),
       name := StrOrNone(patch.name.GetOr(None)).GetOr(n.name),
       role := if patch.role.Some? then OrNone(patch.role.value) else n.role,
       status := if patch.status.Some? then OrNone(patch.status.value) else n.status)
  }

  /** A node is found only from the pane it lives on. */
  predicate HasNode(v: Vault, pane: Pane, e: nat, id: nat) {
    id in v.nodes && v.nodes[id].engagement == e && PaneOf(v.nodes[id].role) == pane
  }

  function UpdateNode(v: Vault, pane: Pane, e: nat, id: nat, patch: NodePatch): (r: (Vault, Reply))
    ensures r.1 != Done ==> r.0 == v
    ensures r.0 == v.(nodes := r.0.nodes) && r.0.nodes.Keys == v.nodes.Keys
  {
    if !HasNode(v, pane, e, id) then (v, Aborted(404))
    else if !PatchFits(pane, patch) then (v, Aborted(400))
    else (v.(nodes := v.nodes[id := Patched(v.nodes[id], patch)]), Done)
  }

  function EdgesWithout(edges: map<nat, Edge>, node: nat): map<nat, Edge> {
    map i | i in edges && edges[i].source != node && edges[i].target != node :: edges[i]
  }

  function UnlinkNode(findings: map<nat, Finding>, id: nat): map<nat, Finding> {
    map i | i in findings :: findings[i].(links := findings[i].links.(nodes := findings[i].links.nodes - {id}))
  }

  /** Deleting a node takes its edges along and unlinks it from findings. */
  function WithoutNode(v: Vault, id: nat): (v': Vault)
    ensures v' == v.(nodes := v'.nodes, edges := v'.edges, findings := v'.findings)
  {
    v.(nodes := v.nodes - {id}, edges := EdgesWithout(v.edges, id), findings := UnlinkNode(v.findings, id))
  }

  /** The infrastructure route deletes any node of the engagement, the targets route only targets. */
  function DeleteNode(v: Vault, pane: Pane, e: nat, id: nat): (r: (Vault, Reply))
    ensures r.1 != Done ==> r.0 == v
    ensures r.0 == v.(nodes := r.0.nodes, edges := r.0.edges, findings := r.0.findings)
  {
    if id !in v.nodes || v.nodes[id].engagement != e || (pane == Targets && !HasNode(v, Targets, e, id)) then (v, Aborted(404))
    else (WithoutNode(v, id), Done)
  }

  function Lower(s: string): string {
    seq(|s|, i requires 0 <= i < |s| => if 'A' <= s[i] <= 'Z' then s[i] - 'A' + 'a' else s[i])
  }

  predicate NamedIn(v: Vault, e: nat, name: string) {
    exists id <- v.nodes :: v.nodes[id].engagement == e && Lower(v.nodes[id].name) == Lower(name)
  }

  function OriginNode(e: nat, host: string, isIp: bool): Node {
    Node(e, if isIp then "ip_address" else "hostname", host, Some("target"), Some("healthy"))
  }

  /** `resolve_origin_node`: a host the engagement does not know yet becomes a target. */
  function ResolveOrigin(v: Vault, id: nat, e: nat, origin: string, isIp: bool): (r: (Vault, Option<string>))
    requires id !in v.nodes
    ensures r.0 == v.(nodes := r.0.nodes)
    ensures forall i <- v.nodes :: i in r.0.nodes && r.0.nodes[i] == v.nodes[i]
  {
    var host := Strip(origin);
    if host == "" then (v, None)
    else if NamedIn(v, e, host) then (v, Some(host))
    else (v.(nodes := v.nodes[id := OriginNode(e, host, isIp)]), Some(host))
  }

  // ---------------------------------------------------------------- edges

  /** `_resolve_edge_nodes`; an id of zero counts as missing. */
  predicate EdgeResolves(v: Vault, pane: Pane, e: nat, source: Option<nat>, target: Option<nat>) {
    && source.Some? && target.Some? && source.value != 0 && target.value != 0 && source != target
    && HasNode(v, pane, e, source.value) && HasNode(v, pane, e, target.value)
  }

  function CreateEdge(v: Vault, id: nat, pane: Pane, e: nat, source: Option<nat>, target: Option<nat>): (r: (Vault, Reply))
    requires id !in v.edges
    ensures r.1 != Done ==> r.0 == v
    ensures r.0 == v.(edges := r.0.edges)
  {
    if e !in v.engagements then (v, Aborted(404))
    else if !EdgeResolves(v, pane, e, source, target) then (v, Aborted(400))
    else (v.(edges := v.edges[id := Edge(e, source.value, target.value)]), Done)
  }

  /** An edge is on a pane when both its ends are. */
  predicate OnPane(v: Vault, pane: Pane, edge: Edge) {
    && edge.source in v.nodes && edge.target in v.nodes
    && PaneOf(v.nodes[edge.source].role) == pane && PaneOf(v.nodes[edge.target].role) == pane
  }

  function UpdateEdge(v: Vault, pane: Pane, e: nat, id: nat, source: Option<Option<nat>>, target: Option<Option<nat>>)
    : (r: (Vault, Reply))
    ensures r.1 != Done ==> r.0 == v
    ensures r.0 == v.(edges := r.0.edges)
  {
    if id !in v.edges || v.edges[id].engagement != e || !OnPane(v, pane, v.edges[id]) then (v, Aborted(404))
    else if source.None? && target.None? then (v, Done)
    else
      var s, t := source.GetOr(Some(v.edges[id].source)), target.GetOr(Some(v.edges[id].target));
      if !EdgeResolves(v, pane, e, s, t) then (v, Aborted(400))
      else (v.(edges := v.edges[id := Edge(e, s.value, t.value)]), Done)
  }

  function DeleteEdge(v: Vault, e: nat, id: nat): (r: (Vault, Reply))
    ensures r.1 != Done ==> r.0 == v
    ensures r.0 == v.(edges := r.0.edges)
  {
    if id !in v.edges || v.edges[id].engagement != e then (v, Aborted(404))
    else (v.(edges := v.edges - {id}), Done)
  }

  /** `list_edges` of a pane. */
  function ListEdges(v: Vault, pane: Pane, e: nat): set<nat> {
    set id | id in v.edges && v.edges[id].engagement == e && OnPane(v, pane, v.edges[id])
  }

  // ---------------------------------------------------------------- engagements

  /** A form or body without a model means the default one. */
  function ModelOf(model: Option<string>): string {
    OrNone(model).GetOr(LMCKC)
  }

  function CreateEngagement(v: Vault, id: nat, name: Option<string>, client: Option<string>, model: Option<string>)
    : (r: (Vault, Reply))
    requires id !in v.engagements
    ensures r.1 != Done ==> r.0 == v
    ensures r.0 == v.(engagements := r.0.engagements)
  {
    if !Given(name) || !Given(client) || ModelOf(model) !in KILL_CHAIN_MODELS then (v, Aborted(400))
    else
      var e := Engagement(Strip(name.value), Strip(client.value), ModelOf(model));
      (v.(engagements := v.engagements[id := e]), Done)
  }

  predicate HasEntries(v: Vault, e: nat) {
    exists id <- v.entries :: v.entries[id].engagement == e
  }

  /** Naming a kill chain model at all is an error once there are entries. */
  predicate EngagementPatchFits(hasEntries: bool, name: Field, client: Field, model: Field)
    ensures EngagementPatchFits(hasEntries, name, client, model) && model.Some? ==>
              !hasEntries && model.value.Some? && model.value.value in KILL_CHAIN_MODELS
  {
    && (name.Some? ==> StrOrNone(name.value).Some?)
    && (client.Some? ==> StrOrNone(client.value).Some?)
    && (model.Some? ==> !hasEntries && model.value.Some? && model.value.value in KILL_CHAIN_MODELS)
  }

  function PatchedEngagement(was: Engagement, name: Field, client: Field, model: Field): (now: Engagement)
    ensures now.model == model.GetOr(None).GetOr(was.model)
  {
    Engagement(StrOrNone(name.GetOr(None)).GetOr(was.name), StrOrNone(client.GetOr(None)).GetOr(was.client),
               model.GetOr(None).GetOr(was.model))
  }

  /** The JSON route. */
  function UpdateEngagement(v: Vault, e: nat, name: Field, client: Field, model: Field): (r: (Vault, Reply))
    ensures r.1 != Done ==> r.0 == v
    ensures r.0 == v.(engagements := r.0.engagements)
  {
    if e !in v.engagements then (v, Aborted(404))
    else if !EngagementPatchFits(HasEntries(v, e), name, client, model) then (v, Aborted(400))
    else (v.(engagements := v.engagements[e := PatchedEngagement(v.engagements[e], name, client, model)]), Done)
  }

  /** The HTML form always sends a model, and it is ignored once there are entries. */
  function EditEngagement(v: Vault, e: nat, name: string, client: string, model: Option<string>): (r: (Vault, Reply))
    ensures r.1 != Done ==> r.0 == v
    ensures r.0 == v.(engagements := r.0.engagements)
  {
    if e !in v.engagements then (v, Aborted(404))
    else if Strip(name) == "" || Strip(client) == "" then (v, Flashed)
    else if !HasEntries(v, e) && ModelOf(model) !in KILL_CHAIN_MODELS then (v, Aborted(400))
    else
      var now := Engagement(Strip(name), Strip(client),
                            if HasEntries(v, e) then v.engagements[e].model else ModelOf(model));
      (v.(engagements := v.engagements[e := now]), Done)
  }

  // ---------------------------------------------------------------- kill chain entries

  /** The ids that name rows of the engagement; the others are dropped without a word. */
  function Linked(ids: seq<nat>, rows: set<nat>): set<nat> {
    set i | i in ids && i in rows
  }

  /** A range that ends first is refused, one that cannot be compared is an unhandled error. */
  function RangeRefused(check: RangeCheck): (reply: Reply)
    ensures reply != Done
  {
    Aborted(if check == Incomparable then 500 else 400)
  }

  /** The first refusal a new entry's fields meet; Done is none. */
  function EntryCheck(model: string, stage: Option<string>, title: Option<string>, startedAt: Option<Time>,
                      endedAt: Option<Time>): (r: Reply)
    ensures r == Done ==>
      stage.Some? && title.Some? && stage.value in StagesFor(model) && CheckRange(startedAt, endedAt) == Valid
  {
    if !Given(stage) || !Given(title) || stage.value !in StagesFor(model) then Aborted(400)
    else if CheckRange(startedAt, endedAt) != Valid then RangeRefused(CheckRange(startedAt, endedAt))
    else Done
  }

  function CreateEntry(v: Vault, id: nat, e: nat, stage: Option<string>, title: Option<string>, startedAt: Option<Time>,
                       endedAt: Option<Time>, dialect: Dialect, createdAt: int, lootIds: Option<seq<nat>>)
    : (r: (Vault, Reply))
    requires id !in v.entries
    ensures r.1 != Done ==> r.0 == v
    ensures r.0 == v.(entries := r.0.entries)
  {
    if e !in v.engagements then (v, Aborted(404))
    else if EntryCheck(v.engagements[e].model, stage, title, startedAt, endedAt) != Done then
      (v, EntryCheck(v.engagements[e].model, stage, title, startedAt, endedAt))
    else
      var entry := Entry(e, stage.value, Strip(title.value), StoredTime(dialect, startedAt), StoredTime(dialect, endedAt),
                         createdAt, Linked(lootIds.GetOr([]), LootOf(v, e)));
      (v.(entries := v.entries[id := entry]), Done)
  }

  datatype EntryPatch = EntryPatch(stage: Field, title: Field, startedAt: Option<Option<Time>>,
                                   endedAt: Option<Option<Time>>, lootIds: Option<seq<nat>>)

  /** The first refusal the fields of a PATCH meet; Done is none. */
  function EntryPatchCheck(model: string, was: Entry, patch: EntryPatch): (r: Reply)
    ensures r == Done ==>
      && (patch.stage.Some? ==> patch.stage.value.Some? && patch.stage.value.value in StagesFor(model))
      && CheckRange(Merged(patch.startedAt, was.startedAt), Merged(patch.endedAt, was.endedAt)) == Valid
  {
    var check := CheckRange(Merged(patch.startedAt, was.startedAt), Merged(patch.endedAt, was.endedAt));
    if (patch.stage.Some? && (patch.stage.value.None? || patch.stage.value.value !in StagesFor(model)))
       || (patch.title.Some? && StrOrNone(patch.title.value).None?) then Aborted(400)
    else if check != Valid then RangeRefused(check)
    else Done
  }

  /** The entry after the fields of a PATCH, but for its loot. */
  function PatchedEntry(was: Entry, patch: EntryPatch, dialect: Dialect): (now: Entry)
    ensures now.engagement == was.engagement && now.loot == was.loot
    ensures now.stage == patch.stage.GetOr(None).GetOr(was.stage)
    ensures now.startedAt == StoredTime(dialect, Merged(patch.startedAt, was.startedAt))
    ensures now.endedAt == StoredTime(dialect, Merged(patch.endedAt, was.endedAt))
  {
    was.(stage := patch.stage.GetOr(None).GetOr(was.stage),
         title := StrOrNone(patch.title.GetOr(None)).GetOr(was.title),
         startedAt := StoredTime(dialect, Merged(patch.startedAt, was.startedAt)),
         endedAt := StoredTime(dialect, Merged(patch.endedAt, was.endedAt)))
  }

  function UpdateEntry(v: Vault, e: nat, id: nat, patch: EntryPatch, dialect: Dialect): (r: (Vault, Reply))
    ensures r.1 != Done ==> r.0 == v
    ensures r.0 == v.(entries := r.0.entries)
  {
    if id !in v.entries || v.entries[id].engagement != e || e !in v.engagements then (v, Aborted(404))
    else if EntryPatchCheck(v.engagements[e].model, v.entries[id], patch) != Done then
      (v, EntryPatchCheck(v.engagements[e].model, v.entries[id], patch))
    else
      var now := PatchedEntry(v.entries[id], patch, dialect);
      var linked := if patch.lootIds.Some? then Linked(patch.lootIds.value, LootOf(v, e)) else now.loot;
      (v.(entries := v.entries[id := now.(loot := linked)]), Done)
  }

  function MappingsWithoutEntry(mappings: map<nat, Mapping>, id: nat): map<nat, Mapping> {
    map i | i in mappings && mappings[i].entry != Some(id) :: mappings[i]
  }

  function UnlinkEntry(findings: map<nat, Finding>, id: nat): map<nat, Finding> {
    map i | i in findings :: findings[i].(links := findings[i].links.(entries := findings[i].links.entries - {id}))
  }

  /** Deleting an entry takes its mappings along and unlinks it from findings. */
  function WithoutEntry(v: Vault, id: nat): (v': Vault)
    ensures v' == v.(entries := v'.entries, mappings := v'.mappings, findings := v'.findings)
  {
    v.(entries := v.entries - {id}, mappings := MappingsWithoutEntry(v.mappings, id),
       findings := UnlinkEntry(v.findings, id))
  }

  function DeleteEntry(v: Vault, e: nat, id: nat): (r: (Vault, Reply))
    ensures r.1 != Done ==> r.0 == v
    ensures r.0 == v.(entries := r.0.entries, mappings := r.0.mappings, findings := r.0.findings)
  {
    if id !in v.entries || v.entries[id].engagement != e then (v, Aborted(404))
    else (WithoutEntry(v, id), Done)
  }

  // ---------------------------------------------------------------- loot

  function UploadLoot(v: Vault, id: nat, nodeId: nat, e: nat, uploaded: bool, knownCategory: bool, host: string, isIp: bool)
    : (r: (Vault, Reply))
    requires id !in v.loot && nodeId !in v.nodes
    ensures r.1 != Done ==> r.0 == v
    ensures r.0 == v.(nodes := r.0.nodes, loot := r.0.loot)
  {
    if e !in v.engagements then (v, Aborted(404))
    else if !uploaded || !knownCategory then (v, Aborted(400))
    else
      var (v1, origin) := ResolveOrigin(v, nodeId, e, host, isIp);
      (v.(nodes := v1.nodes, loot := v.loot[id := LootFile(e, origin)]), Done)
  }

  /** A change of origin may add a target; other metadata is not kept here. */
  function UpdateLoot(v: Vault, nodeId: nat, e: nat, id: nat, knownCategory: bool, host: Option<string>, isIp: bool)
    : (r: (Vault, Reply))
    requires nodeId !in v.nodes
    ensures r.1 != Done ==> r.0 == v
    ensures r.0 == v.(nodes := r.0.nodes, loot := r.0.loot)
  {
    if id !in v.loot || v.loot[id].engagement != e then (v, Aborted(404))
    else if !knownCategory then (v, Aborted(400))
    else if host.None? then (v, Done)
    else
      var (v1, origin) := ResolveOrigin(v, nodeId, e, host.value, isIp);
      (v.(nodes := v1.nodes, loot := v.loot[id := LootFile(e, origin)]), Done)
  }

  predicate LootIsLinked(v: Vault, id: nat) {
    || (exists f <- v.findings :: id in v.findings[f].links.loot)
    || (exists k <- v.entries :: id in v.entries[k].loot)
  }

  function MappingsWithoutLoot(mappings: map<nat, Mapping>, id: nat): map<nat, Mapping> {
    map i | i in mappings && mappings[i].lootFile != Some(id) :: mappings[i]
  }

  /** The links from findings and entries are foreign keys nothing clears, so they refuse the delete. */
  function DeleteLoot(v: Vault, e: nat, id: nat): (r: (Vault, Reply))
    ensures r.1 != Done ==> r.0 == v
    ensures r.0 == v.(loot := r.0.loot, mappings := r.0.mappings)
  {
    if id !in v.loot || v.loot[id].engagement != e then (v, Aborted(404))
    else if LootIsLinked(v, id) then (v, Aborted(500))
    else (v.(loot := v.loot - {id}, mappings := MappingsWithoutLoot(v.mappings, id)), Done)
  }

  // ---------------------------------------------------------------- credentials and IOCs

  function CreateCredential(v: Vault, id: nat, e: nat): (r: (Vault, Reply))
    requires id !in v.credentials
    ensures r.1 != Done ==> r.0 == v
    ensures r.0 == v.(credentials := r.0.credentials)
  {
    if e !in v.engagements then (v, Aborted(404)) else (v.(credentials := v.credentials[id := e]), Done)
  }

  function UnlinkCredential(findings: map<nat, Finding>, id: nat): map<nat, Finding> {
    map i | i in findings :: findings[i].(links := findings[i].links.(credentials := findings[i].links.credentials - {id}))
  }

  function DeleteCredential(v: Vault, e: nat, id: nat): (r: (Vault, Reply))
    ensures r.1 != Done ==> r.0 == v
    ensures r.0 == v.(credentials := r.0.credentials, findings := r.0.findings)
  {
    if id !in v.credentials || v.credentials[id] != e then (v, Aborted(404))
    else (v.(credentials := v.credentials - {id}, findings := UnlinkCredential(v.findings, id)), Done)
  }

  function CreateIoc(v: Vault, id: nat, e: nat): (r: (Vault, Reply))
    requires id !in v.iocs
    ensures r.1 != Done ==> r.0 == v
    ensures r.0 == v.(iocs := r.0.iocs)
  {
    if e !in v.engagements then (v, Aborted(404)) else (v.(iocs := v.iocs[id := e]), Done)
  }

  function UnlinkIoc(findings: map<nat, Finding>, id: nat): map<nat, Finding> {
    map i | i in findings :: findings[i].(links := findings[i].links.(iocs := findings[i].links.iocs - {id}))
  }

  function DeleteIoc(v: Vault, e: nat, id: nat): (r: (Vault, Reply))
    ensures r.1 != Done ==> r.0 == v
    ensures r.0 == v.(iocs := r.0.iocs, findings := r.0.findings)
  {
    if id !in v.iocs || v.iocs[id] != e then (v, Aborted(404))
    else (v.(iocs := v.iocs - {id}, findings := UnlinkIoc(v.findings, id)), Done)
  }

  // ---------------------------------------------------------------- findings

  /** The id lists of a request; a missing list is an empty one. */
  datatype LinkIds = LinkIds(loot: seq<nat>, nodes: seq<nat>, credentials: seq<nat>, iocs: seq<nat>, entries: seq<nat>)

  /** `apply_correlations`: each collection becomes the listed rows of the engagement. */
  function Correlated(v: Vault, e: nat, ids: LinkIds): Links {
    Links(Linked(ids.loot, LootOf(v, e)), Linked(ids.nodes, NodesOf(v, e)), Linked(ids.credentials, CredentialsOf(v, e)),
          Linked(ids.iocs, IocsOf(v, e)), Linked(ids.entries, EntriesOf(v, e)))
  }

  function CreateFinding(v: Vault, id: nat, e: nat, title: Option<string>, severity: Option<string>, ids: LinkIds)
    : (r: (Vault, Reply))
    requires id !in v.findings
    ensures r.1 != Done ==> r.0 == v
    ensures r.0 == v.(findings := r.0.findings)
  {
    if e !in v.engagements then (v, Aborted(404))
    else if !Given(title) || !Given(severity) || severity.value !in SEVERITIES then (v, Aborted(400))
    else (v.(findings := v.findings[id := Finding(e, Strip(title.value), severity.value, Correlated(v, e, ids))]), Done)
  }

  /** Without any id list in the request the links stay; with one, the missing lists clear theirs. */
  function UpdateFinding(v: Vault, e: nat, id: nat, title: Field, severity: Field, ids: Option<LinkIds>)
    : (r: (Vault, Reply))
    ensures r.1 != Done ==> r.0 == v
    ensures r.0 == v.(findings := r.0.findings)
  {
    if id !in v.findings || v.findings[id].engagement != e then (v, Aborted(404))
    else if (title.Some? && StrOrNone(title.value).None?)
         || (severity.Some? && (severity.value.None? || severity.value.value !in SEVERITIES)) then (v, Aborted(400))
    else
      var was := v.findings[id];
      var now := Finding(e, StrOrNone(title.GetOr(None)).GetOr(was.title), severity.GetOr(None).GetOr(was.severity),
                         if ids.Some? then Correlated(v, e, ids.value) else was.links);
      (v.(findings := v.findings[id := now]), Done)
  }

  function DeleteFinding(v: Vault, e: nat, id: nat): (r: (Vault, Reply))
    ensures r.1 != Done ==> r.0 == v
    ensures r.0 == v.(findings := r.0.findings)
  {
    if id !in v.findings || v.findings[id].engagement != e then (v, Aborted(404))
    else (v.(findings := v.findings - {id}), Done)
  }

  // ---------------------------------------------------------------- technique mappings

  /** `map_technique_to_loot`, the technique already looked up by its ATT&CK id. */
  function MapLoot(v: Vault, id: nat, e: nat, file: nat, technique: Option<nat>): (r: (Vault, Reply))
    requires id !in v.mappings
    ensures r.1 != Done ==> r.0 == v
    ensures r.0 == v.(mappings := r.0.mappings)
  {
    if file !in v.loot || v.loot[file].engagement != e then (v, Aborted(404))
    else if technique.None? then (v, Aborted(400))
    else (v.(mappings := v.mappings[id := Mapping(e, technique.value, Some(file), None)]), Done)
  }

  function MapEntry(v: Vault, id: nat, e: nat, entry: nat, technique: Option<nat>): (r: (Vault, Reply))
    requires id !in v.mappings
    ensures r.1 != Done ==> r.0 == v
    ensures r.0 == v.(mappings := r.0.mappings)
  {
    if entry !in v.entries || v.entries[entry].engagement != e then (v, Aborted(404))
    else if technique.None? then (v, Aborted(400))
    else (v.(mappings := v.mappings[id := Mapping(e, technique.value, None, Some(entry))]), Done)
  }

  function DeleteMapping(v: Vault, id: nat): (r: (Vault, Reply))
    ensures r.1 != Done ==> r.0 == v
    ensures r.0 == v.(mappings := r.0.mappings)
  {
    if id !in v.mappings then (v, Aborted(404)) else (v.(mappings := v.mappings - {id}), Done)
  }

  // ---------------------------------------------------------------- users

  predicate UsernameTaken(v: Vault, username: string) {
    exists u <- v.users :: v.users[u].username == username
  }

  predicate GoodLogin(username: string, password: string) {
    |Strip(username)| >= 3 && |password| >= 8
  }

  /** The setup wizard makes the first admin, and on engagement infrastructure the first engagement. */
  function SetUp(v: Vault, id: nat, username: string, password: string, confirm: string, knownMode: bool,
                 engagement: Option<(nat, string)>, model: Option<string>): (r: (Vault, Reply))
    requires engagement.Some? ==> engagement.value.0 !in v.engagements
    ensures r.1 != Done ==> r.0 == v
    ensures r.0 == v.(users := r.0.users, engagements := r.0.engagements)
    ensures v.users.Keys <= r.0.users.Keys
  {
    if v.users != map[] then (v, Flashed)
    else if !GoodLogin(username, password) || password != confirm || !knownMode
         || (engagement.Some? && Strip(engagement.value.1) == "")
         || ModelOf(model) !in KILL_CHAIN_MODELS then (v, Flashed)
    else
      var v1 := v.(users := map[id := User(Strip(username), ADMIN, true)]);
      if engagement.None? then (v1, Done)
      else
        var name := Strip(engagement.value.1);
        (v1.(engagements := v1.engagements[engagement.value.0 := Engagement(name, name, ModelOf(model))]), Done)
  }

  /** `role_required_csrf("admin")`: tokens of inactive users and outdated roles are revoked, so the role is the current one. */
  predicate MayAdminister(v: Vault, actor: nat) {
    ActiveAdmin(v, actor)
  }

  /** What a request that fails the admin gate answers: no valid session, or the wrong role. */
  function Denied(v: Vault, actor: nat): Reply {
    if IsActive(v, actor) then Aborted(403) else Flashed
  }

  function CreateUser(v: Vault, id: nat, actor: nat, username: string, password: string, role: string): (r: (Vault, Reply))
    requires id !in v.users
    ensures r.1 != Done ==> r.0 == v
    ensures r.0 == v.(users := r.0.users)
    ensures v.users.Keys <= r.0.users.Keys
  {
    if !MayAdminister(v, actor) then (v, Denied(v, actor))
    else if !GoodLogin(username, password) || UsernameTaken(v, Strip(username)) then (v, Flashed)
    else
      var granted := if role in USER_ROLES then role else OPERATOR;
      (v.(users := v.users[id := User(Strip(username), granted, true)]), Done)
  }

  predicate OtherActiveAdminsExist(users: map<nat, User>, user: nat) {
    exists u <- users :: u != user && users[u].active && IsAdmin(users[u])
  }

  /** An unknown role leaves the old one. */
  function GrantedRole(asked: Option<string>, was: string): string {
    if asked.GetOr(was) in USER_ROLES then asked.GetOr(was) else was
  }

  function EditUser(v: Vault, actor: nat, user: nat, role: Option<string>, active: bool): (r: (Vault, Reply))
    ensures r.1 != Done ==> r.0 == v
    ensures r.0 == v.(users := r.0.users)
    ensures v.users.Keys <= r.0.users.Keys
  {
    if !MayAdminister(v, actor) then (v, Denied(v, actor))
    else if user !in v.users then (v, Aborted(404))
    else
      var was := v.users[user];
      var now := was.(role := GrantedRole(role, was.role), active := active);
      if IsAdmin(was) && !(IsAdmin(now) && active) && !OtherActiveAdminsExist(v.users, user) then (v, Flashed)
      else (v.(users := v.users[user := now]), Done)
  }

  function DeactivateUser(v: Vault, actor: nat, user: nat): (r: (Vault, Reply))
    ensures r.1 != Done ==> r.0 == v
    ensures r.0 == v.(users := r.0.users)
    ensures v.users.Keys <= r.0.users.Keys
  {
    if !MayAdminister(v, actor) then (v, Denied(v, actor))
    else if user !in v.users then (v, Aborted(404))
    else if IsAdmin(v.users[user]) && !OtherActiveAdminsExist(v.users, user) then (v, Flashed)
    else (v.(users := v.users[user := v.users[user].(active := false)]), Done)
  }

  // ---------------------------------------------------------------- deleting an engagement

  function RequestDeletion(v: Vault, actor: nat, e: nat): (r: (Vault, Reply))
    ensures r.1 != Done ==> r.0 == v
    ensures r.0 == v.(requests := r.0.requests)
  {
    if !MayAdminister(v, actor) then (v, Denied(v, actor))
    else if e !in v.engagements then (v, Aborted(404))
    else if e in v.requests then (v, Flashed)
    else (v.(requests := v.requests[e := actor]), Done)
  }

  function CancelDeletion(v: Vault, actor: nat, e: nat): (r: (Vault, Reply))
    ensures r.1 != Done ==> r.0 == v
    ensures r.0 == v.(requests := r.0.requests)
  {
    if !MayAdminister(v, actor) then (v, Denied(v, actor))
    else if e !in v.engagements then (v, Aborted(404))
    else if e !in v.requests then (v, Flashed)
    else (v.(requests := v.requests - {e}), Done)
  }

  // What an engagement leaves behind in each table.

  function NodesOutside(nodes: map<nat, Node>, e: nat): map<nat, Node> {
    map i | i in nodes && nodes[i].engagement != e :: nodes[i]
  }

  /** Edges go with their engagement and with either end. */
  function EdgesOutside(edges: map<nat, Edge>, nodes: map<nat, Node>, e: nat): map<nat, Edge> {
    map i | i in edges && edges[i].engagement != e
            && !(edges[i].source in nodes && nodes[edges[i].source].engagement == e)
            && !(edges[i].target in nodes && nodes[edges[i].target].engagement == e) :: edges[i]
  }

  function LootOutside(loot: map<nat, LootFile>, e: nat): map<nat, LootFile> {
    map i | i in loot && loot[i].engagement != e :: loot[i]
  }

  function OwnedOutside(rows: map<nat, nat>, e: nat): map<nat, nat> {
    map i | i in rows && rows[i] != e :: rows[i]
  }

  function EntriesOutside(entries: map<nat, Entry>, e: nat): map<nat, Entry> {
    map i | i in entries && entries[i].engagement != e :: entries[i]
  }

  function FindingsOutside(findings: map<nat, Finding>, e: nat): map<nat, Finding> {
    map i | i in findings && findings[i].engagement != e :: findings[i]
  }

  /** A mapping goes with its target, whatever engagement it names itself. */
  function MappingsOutside(mappings: map<nat, Mapping>, loot: map<nat, LootFile>, entries: map<nat, Entry>, e: nat)
    : map<nat, Mapping>
  {
    map i | i in mappings && !TargetIn(mappings[i], loot, entries, e) :: mappings[i]
  }

  predicate TargetIn(m: Mapping, loot: map<nat, LootFile>, entries: map<nat, Entry>, e: nat) {
    || (m.lootFile.Some? && m.lootFile.value in loot && loot[m.lootFile.value].engagement == e)
    || (m.entry.Some? && m.entry.value in entries && entries[m.entry.value].engagement == e)
  }

  function WithoutEngagement(v: Vault, e: nat): Vault {
    Vault(v.users, v.engagements - {e}, v.requests - {e}, NodesOutside(v.nodes, e), EdgesOutside(v.edges, v.nodes, e),
          LootOutside(v.loot, e), OwnedOutside(v.credentials, e), OwnedOutside(v.iocs, e), EntriesOutside(v.entries, e),
          FindingsOutside(v.findings, e), MappingsOutside(v.mappings, v.loot, v.entries, e))
  }

  /** `elsewhere`: a setting or a backup destination refers to the engagement, and its foreign key refuses the delete. */
  function ApproveDeletion(v: Vault, actor: nat, e: nat, elsewhere: bool): (r: (Vault, Reply))
    ensures r.1 != Done ==> r.0 == v
  {
    if !IsActive(v, actor) then (v, Flashed)
    else if v.users[actor].role == BLUETEAM then (v, Aborted(403))
    else if e !in v.engagements then (v, Aborted(404))
    else if e !in v.requests then (v, Flashed)
    else if v.users[actor].role != ADMIN && v.users[actor].role != OPERATOR then (v, Aborted(403))
    else if v.requests[e] == actor then (v, Flashed)
    else if elsewhere then (v, Aborted(500))
    else (WithoutEngagement(v, e), Done)
  }
}
