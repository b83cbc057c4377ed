/**
  What is on record after a request: what was asked for, in the field it was
  asked for, and otherwise what was there before.
 */
module VaultEffects {
  import opened Wrappers
  import opened Text
  import opened Times
  import opened VaultState
  import opened VaultSteps

  /** Text that is missing or empty counts as none. */
  function Asked(text: Option<string>): Option<string> {
    if text == None || text == Some("") then None else text
  }

  // ---------------------------------------------------------------- nodes

  /** A new node has the type, the role and the name it was asked for, blanks around the name aside, and is healthy by default. */
  lemma NodeOnRecord(v: Vault, id: nat, pane: Pane, e: nat, nodeType: Option<string>, name: Option<string>,
                     role: Option<string>, status: Option<string>)
    requires id !in v.nodes
    ensures var r := CreateNode(v, id, pane, e, nodeType, name, role, status);
      && (r.1 == Aborted(404) <==> e !in v.engagements)
      && (r.1 == Done ==>
            && nodeType.Some? && name.Some?
            && r.0 == v.(nodes := v.nodes[id := Node(e, nodeType.value, Strip(name.value), Asked(role),
                                                     Some(Asked(status).GetOr("healthy")))]))
  {
    hide Strip, RoleFits, StatusFits, TypeFits;
    AskedIs(nodeType);
    AskedIs(name);
    AskedIs(role);
    AskedIs(status);
    hide Asked, OrNone;
    if e in v.engagements && NodeFits(pane, nodeType, name, role, status) {
      assert CreateNode(v, id, pane, e, nodeType, name, role, status)
             == (v.(nodes := v.nodes[id := VaultSteps.NewNode(e, nodeType, name, role, status)]), Done);
    }
  }

  lemma AskedIs(text: Option<string>)
    ensures Asked(text) == OrNone(text) && (Given(text) ==> text.Some?)
  {
  }

  /** Fields a PATCH does not name stay; named ones take the submitted value, and an empty role or status clears. */
  predicate IsPatched(was: Node, patch: NodePatch, now: Node) {
    && now.engagement == was.engagement
    && (if patch.nodeType.None? then now.nodeType == was.nodeType else patch.nodeType.value == Some(now.nodeType))
    && (if patch.name.None? then now.name == was.name
        else patch.name.value.Some? && now.name == Strip(patch.name.value.value) && now.name != "")
    && now.role == (if patch.role.None? then was.role else Asked(patch.role.value))
    && now.status == (if patch.status.None? then was.status else Asked(patch.status.value))
  }

  lemma NodePatched(v: Vault, pane: Pane, e: nat, id: nat, patch: NodePatch)
    ensures var r := UpdateNode(v, pane, e, id, patch);
      && (r.1 == Aborted(404) <==> !HasNode(v, pane, e, id))
      && (r.1 == Done ==>
            id in v.nodes && id in r.0.nodes && r.0 == v.(nodes := v.nodes[id := r.0.nodes[id]])
            && IsPatched(v.nodes[id], patch, r.0.nodes[id]))
  {
    hide Strip, RoleFits, StatusFits, TypeFits, PaneOf;
  }

  // ---------------------------------------------------------------- edges

  /** An edge runs from the source to the target that were asked for. */
  lemma EdgeOnRecord(v: Vault, id: nat, pane: Pane, e: nat, source: Option<nat>, target: Option<nat>)
    requires id !in v.edges
    ensures var r := CreateEdge(v, id, pane, e, source, target);
      && (r.1 == Aborted(404) <==> e !in v.engagements)
      && (r.1 == Done ==>
            source.Some? && target.Some? && r.0 == v.(edges := v.edges[id := Edge(e, source.value, target.value)]))
  {
    hide PaneOf;
  }

  /** The end an edge's PATCH names moves there; the other stays where it was. */
  lemma EdgePatched(v: Vault, pane: Pane, e: nat, id: nat, source: Option<Option<nat>>, target: Option<Option<nat>>)
    ensures var r := UpdateEdge(v, pane, e, id, source, target);
      && (r.1 == Done ==>
            && id in v.edges && id in r.0.edges
            && r.0 == v.(edges := v.edges[id := r.0.edges[id]])
            && Some(r.0.edges[id].source) == source.GetOr(Some(v.edges[id].source))
            && Some(r.0.edges[id].target) == target.GetOr(Some(v.edges[id].target))
            && r.0.edges[id].engagement == v.edges[id].engagement)
  {
    hide PaneOf;
    if id in v.edges {
      assert v.edges[id := v.edges[id]] == v.edges;
    }
  }

  // ---------------------------------------------------------------- engagements

  /** The stages an entry may have, by the engagement's model; a model that is neither counts as Lockheed Martin's. */
  lemma StagesOfModels(stage: string)
    ensures stage in StagesFor("ukc") <==>
      stage in ["reconnaissance", "weaponization", "delivery", "social_engineering", "exploitation", "persistence",
                "defense_evasion", "command_and_control", "pivoting", "discovery", "privilege_escalation", "execution",
                "credential_access", "lateral_movement", "collection", "exfiltration", "impact", "objectives"]
    ensures forall model :: model != "ukc" ==>
      (stage in StagesFor(model) <==>
        stage in ["reconnaissance", "weaponization", "delivery", "exploitation", "installation", "command_and_control",
                  "actions_on_objectives"])
  {
  }

  /** A new engagement has the name, the client and the model it was asked for, Lockheed Martin's by default. */
  lemma EngagementOnRecord(v: Vault, id: nat, name: Option<string>, client: Option<string>, model: Option<string>)
    requires id !in v.engagements
    ensures var r := CreateEngagement(v, id, name, client, model);
      r.1 == Done ==>
        && name.Some? && client.Some?
        && r.0 == v.(engagements := v.engagements[id := Engagement(Strip(name.value), Strip(client.value),
                                                                   Asked(model).GetOr("lmckc"))])
  {
    hide Strip;
  }

  /** What the JSON route names changes, and nothing else; a model is named only before there are entries. */
  lemma EngagementPatched(v: Vault, e: nat, name: Field, client: Field, model: Field)
    ensures var r := UpdateEngagement(v, e, name, client, model);
      && (r.1 == Aborted(404) <==> e !in v.engagements)
      && (r.1 == Done ==>
            e in v.engagements && e in r.0.engagements && r.0 == v.(engagements := v.engagements[e := r.0.engagements[e]])
            && IsRenamed(v.engagements[e], name, client, model, r.0.engagements[e]))
  {
    hide Strip, HasEntries;
  }

  predicate IsRenamed(was: Engagement, name: Field, client: Field, model: Field, now: Engagement) {
    && (if name.None? then now.name == was.name else name.value.Some? && now.name == Strip(name.value.value) != "")
    && (if client.None? then now.client == was.client
        else client.value.Some? && now.client == Strip(client.value.value) != "")
    && (if model.None? then now.model == was.model else model.value == Some(now.model))
  }

  /** The form sets name and client, and the model while there are no entries. */
  lemma EngagementFormStored(v: Vault, e: nat, name: string, client: string, model: Option<string>)
    ensures var r := EditEngagement(v, e, name, client, model);
      && (r.1 == Aborted(404) <==> e !in v.engagements)
      && (r.1 == Done ==>
            e in v.engagements
            && r.0 == v.(engagements := v.engagements[e := Engagement(Strip(name), Strip(client),
                 if HasEntries(v, e) then v.engagements[e].model else Asked(model).GetOr("lmckc"))]))
  {
    hide Strip, HasEntries;
  }

  // ---------------------------------------------------------------- entries

  /** A new entry has its stage, title and times as asked, and links exactly the listed loot files of its engagement. */
  lemma EntryOnRecord(v: Vault, id: nat, e: nat, stage: Option<string>, title: Option<string>, startedAt: Option<Time>,
                      endedAt: Option<Time>, dialect: Dialect, createdAt: int, lootIds: Option<seq<nat>>)
    requires id !in v.entries
    ensures var r := CreateEntry(v, id, e, stage, title, startedAt, endedAt, dialect, createdAt, lootIds);
      && (r.1 == Aborted(404) <==> e !in v.engagements)
      && (r.1 == Done ==>
            id in r.0.entries && r.0 == v.(entries := v.entries[id := r.0.entries[id]])
            && var now := r.0.entries[id];
            && now.engagement == e && Some(now.stage) == stage && title.Some? && now.title == Strip(title.value)
            && now.startedAt == StoredTime(dialect, startedAt) && now.endedAt == StoredTime(dialect, endedAt)
            && now.createdAt == createdAt
            && LinksListed(now.loot, lootIds.GetOr([]), v.loot, e))
  {
    hide Strip, StagesFor, CheckRange, StoredTime;
  }

  /** The links are the listed loot files of the engagement. */
  predicate LinksListed(links: set<nat>, ids: seq<nat>, loot: map<nat, LootFile>, e: nat) {
    && (forall i <- links :: i in ids && i in loot && loot[i].engagement == e)
    && (forall i <- ids :: i in loot && loot[i].engagement == e ==> i in links)
  }

  /** A PATCH leaves what it does not name, both times and the loot included. */
  lemma EntryPatched(v: Vault, e: nat, id: nat, patch: EntryPatch, dialect: Dialect)
    ensures var r := UpdateEntry(v, e, id, patch, dialect);
      r.1 == Done ==>
        id in v.entries && id in r.0.entries && r.0 == v.(entries := v.entries[id := r.0.entries[id]])
        && IsPatchedEntry(v, e, v.entries[id], patch, dialect, r.0.entries[id])
  {
    hide Strip, StagesFor, CheckRange, Stored;
    assert forall t :: StoredTime(dialect, ReadBack(t)) == t by {
      forall t ensures StoredTime(dialect, ReadBack(t)) == t {
        ReadBackIsStored(dialect, t);
      }
    }
  }

  predicate IsPatchedEntry(v: Vault, e: nat, was: Entry, patch: EntryPatch, dialect: Dialect, now: Entry) {
    && now.engagement == was.engagement && now.createdAt == was.createdAt
    && (if patch.stage.None? then now.stage == was.stage else patch.stage.value == Some(now.stage))
    && (if patch.title.None? then now.title == was.title
        else patch.title.value.Some? && now.title == Strip(patch.title.value.value) != "")
    && now.startedAt == (if patch.startedAt.None? then was.startedAt else StoredTime(dialect, patch.startedAt.value))
    && now.endedAt == (if patch.endedAt.None? then was.endedAt else StoredTime(dialect, patch.endedAt.value))
    && (if patch.lootIds.None? then now.loot == was.loot else LinksListed(now.loot, patch.lootIds.value, v.loot, e))
  }

  // ---------------------------------------------------------------- loot

  /** Hosts are compared without regard to case. */
  lemma HostsIgnoreCase(s: string, i: nat)
    requires i < |s|
    ensures |Lower(s)| == |s|
    ensures Lower(s)[i] as int == if 65 <= s[i] as int <= 90 then s[i] as int + 32 else s[i] as int
  {
  }

  /** A host that a file was found on: a healthy target, an IP address or a host name. */
  predicate IsHostNode(n: Node, e: nat, name: string, isIp: bool) {
    && n.engagement == e && n.name == name && n.nodeType == (if isIp then "ip_address" else "hostname")
    && n.role == Some("target") && n.status == Some("healthy")
  }

  /** A host the engagement knows is left alone; one it does not know is added. */
  ghost predicate HostAdded(v: Vault, nodes: map<nat, Node>, id: nat, e: nat, name: string, isIp: bool) {
    if name == "" || NamedIn(v, e, name) then nodes == v.nodes
    else id in nodes && nodes == v.nodes[id := nodes[id]] && IsHostNode(nodes[id], e, name, isIp)
  }

  /** A file is kept with its host, blanks aside. */
  lemma LootOnRecord(v: Vault, id: nat, nodeId: nat, e: nat, uploaded: bool, knownCategory: bool, host: string, isIp: bool)
    requires id !in v.loot && nodeId !in v.nodes
    ensures var r := UploadLoot(v, id, nodeId, e, uploaded, knownCategory, host, isIp);
      && (r.1 == Aborted(404) <==> e !in v.engagements)
      && (r.1 == Done ==>
            && r.0 == v.(loot := r.0.loot, nodes := r.0.nodes)
            && r.0.loot == v.loot[id := LootFile(e, if Strip(host) == "" then None else Some(Strip(host)))]
            && HostAdded(v, r.0.nodes, nodeId, e, Strip(host), isIp))
  {
    OriginName(v, nodeId, e, host, isIp);
    OriginOnRecord(v, nodeId, e, host, isIp);
    hide Strip, HostAdded, ResolveOrigin;
  }

  lemma OriginName(v: Vault, id: nat, e: nat, origin: string, isIp: bool)
    requires id !in v.nodes
    ensures ResolveOrigin(v, id, e, origin, isIp).1 == if Strip(origin) == "" then None else Some(Strip(origin))
  {
    hide Strip, NamedIn;
  }

  lemma OriginOnRecord(v: Vault, id: nat, e: nat, origin: string, isIp: bool)
    requires id !in v.nodes
    ensures HostAdded(v, ResolveOrigin(v, id, e, origin, isIp).0.nodes, id, e, Strip(origin), isIp)
  {
    HostNodeIs(e, Strip(origin), isIp);
    OriginIs(v, id, e, origin, isIp);
    hide Strip, NamedIn, IsHostNode, OriginNode, ResolveOrigin;
  }

  lemma OriginIs(v: Vault, id: nat, e: nat, origin: string, isIp: bool)
    requires id !in v.nodes
    ensures ResolveOrigin(v, id, e, origin, isIp).0 ==
      if Strip(origin) == "" || NamedIn(v, e, Strip(origin)) then v
      else v.(nodes := v.nodes[id := OriginNode(e, Strip(origin), isIp)])
  {
    hide Strip, NamedIn, OriginNode;
  }

  lemma HostNodeIs(e: nat, name: string, isIp: bool)
    ensures IsHostNode(OriginNode(e, name, isIp), e, name, isIp)
  {
  }

  // ---------------------------------------------------------------- findings and mappings

  /** Each of the five collections holds exactly the listed rows of the finding's engagement. */
  ghost predicate LinksAsked(v: Vault, e: nat, ids: LinkIds, links: Links) {
    && LinksListed(links.loot, ids.loot, v.loot, e)
    && (forall i :: i in links.nodes <==> i in ids.nodes && i in v.nodes && v.nodes[i].engagement == e)
    && (forall i :: i in links.credentials <==> i in ids.credentials && i in v.credentials && v.credentials[i] == e)
    && (forall i :: i in links.iocs <==> i in ids.iocs && i in v.iocs && v.iocs[i] == e)
    && (forall i :: i in links.entries <==> i in ids.entries && i in v.entries && v.entries[i].engagement == e)
  }

  lemma CorrelatedIsAsked(v: Vault, e: nat, ids: LinkIds)
    ensures LinksAsked(v, e, ids, Correlated(v, e, ids))
  {
  }

  lemma FindingOnRecord(v: Vault, id: nat, e: nat, title: Option<string>, severity: Option<string>, ids: LinkIds)
    requires id !in v.findings
    ensures var r := CreateFinding(v, id, e, title, severity, ids);
      && (r.1 == Aborted(404) <==> e !in v.engagements)
      && (r.1 == Done ==>
            id in r.0.findings && r.0 == v.(findings := v.findings[id := r.0.findings[id]])
            && var now := r.0.findings[id];
            && now.engagement == e && title.Some? && now.title == Strip(title.value) && Some(now.severity) == severity
            && now.severity in {"critical", "high", "medium", "low", "informational"}
            && LinksAsked(v, e, ids, now.links))
  {
    CorrelatedIsAsked(v, e, ids);
    AskedIs(title);
    AskedIs(severity);
    hide Strip, Correlated, LinksAsked, Given;
    if e in v.engagements && Given(title) && Given(severity) && severity.value in SEVERITIES {
      var f := Finding(e, Strip(title.value), severity.value, Correlated(v, e, ids));
      assert CreateFinding(v, id, e, title, severity, ids) == (v.(findings := v.findings[id := f]), Done);
    }
  }

  lemma FindingPatched(v: Vault, e: nat, id: nat, title: Field, severity: Field, ids: Option<LinkIds>)
    ensures var r := UpdateFinding(v, e, id, title, severity, ids);
      r.1 == Done ==>
        id in v.findings && id in r.0.findings && r.0 == v.(findings := v.findings[id := r.0.findings[id]])
        && var was, now := v.findings[id], r.0.findings[id];
        && now.engagement == was.engagement
        && (if title.None? then now.title == was.title else title.value.Some? && now.title == Strip(title.value.value) != "")
        && (if severity.None? then now.severity == was.severity else severity.value == Some(now.severity))
        && (if ids.None? then now.links == was.links else LinksAsked(v, e, ids.value, now.links))
  {
    if ids.Some? {
      CorrelatedIsAsked(v, e, ids.value);
    }
    hide Strip, Correlated, LinksAsked;
  }

  /** A mapping joins the technique to the file, or to the entry, that was asked for. */
  lemma MappingOnRecord(v: Vault, id: nat, e: nat, target: nat, technique: Option<nat>)
    requires id !in v.mappings
    ensures var r := MapLoot(v, id, e, target, technique);
      r.1 == Done <==> target in v.loot && v.loot[target].engagement == e && technique.Some?
    ensures var r := MapLoot(v, id, e, target, technique);
      r.1 == Done ==> r.0 == v.(mappings := v.mappings[id := Mapping(e, technique.value, Some(target), None)])
    ensures var r := MapEntry(v, id, e, target, technique);
      r.1 == Done <==> target in v.entries && v.entries[target].engagement == e && technique.Some?
    ensures var r := MapEntry(v, id, e, target, technique);
      r.1 == Done ==> r.0 == v.(mappings := v.mappings[id := Mapping(e, technique.value, None, Some(target))])
  {
  }

  // ---------------------------------------------------------------- users

  /** A new user is active and has the role asked for, or is an operator if there is no such role. */
  lemma UserOnRecord(v: Vault, id: nat, actor: nat, username: string, password: string, role: string)
    requires id !in v.users
    ensures var r := CreateUser(v, id, actor, username, password, role);
      r.1 == Done ==>
        && |Strip(username)| >= 3 && |password| >= 8 && (forall u <- v.users :: v.users[u].username != Strip(username))
        && r.0 == v.(users := v.users[id := User(Strip(username),
          if role in {"operator", "admin", "agent", "blueteam"} then role else "operator", true)])
  {
    hide Strip, ActiveAdmin;
  }

  /** Only an active admin manages users; any other active user is forbidden to, and no one else has a session. */
  lemma OnlyAdminsManageUsers(v: Vault, id: nat, actor: nat, username: string, password: string, role: string, user: nat,
                              newRole: Option<string>, active: bool)
    requires id !in v.users
    ensures var admin := actor in v.users && v.users[actor].active && v.users[actor].role == "admin";
      var refusal := if actor in v.users && v.users[actor].active then Aborted(403) else Flashed;
      !admin ==>
        && CreateUser(v, id, actor, username, password, role) == (v, refusal)
        && EditUser(v, actor, user, newRole, active) == (v, refusal)
        && DeactivateUser(v, actor, user) == (v, refusal)
  {
    hide Strip;
  }

  /** An edit sets the flag, and the role if there is such a role; the name stays. */
  lemma UserPatched(v: Vault, actor: nat, user: nat, role: Option<string>, active: bool)
    ensures var r := EditUser(v, actor, user, role, active);
      r.1 == Done ==>
        && user in v.users
        && r.0 == v.(users := v.users[user := User(v.users[user].username,
             if role.Some? && role.value in {"operator", "admin", "agent", "blueteam"} then role.value
             else v.users[user].role,
             active)])
  {
    hide ActiveAdmin, OtherActiveAdminsExist;
  }

  /** The wizard leaves one user, an active admin, and the first engagement if it was asked for one. */
  lemma SetUpOnRecord(v: Vault, id: nat, username: string, password: string, confirm: string, knownMode: bool,
                      engagement: Option<(nat, string)>, model: Option<string>)
    requires engagement.Some? ==> engagement.value.0 !in v.engagements
    ensures var r := SetUp(v, id, username, password, confirm, knownMode, engagement, model);
      r.1 == Done ==>
        && r.0.users == map[id := User(Strip(username), "admin", true)]
        && r.0 == v.(users := r.0.users, engagements := r.0.engagements)
        && r.0.engagements ==
             if engagement.None? then v.engagements
             else v.engagements[engagement.value.0 := Engagement(Strip(engagement.value.1), Strip(engagement.value.1),
                                                                 Asked(model).GetOr("lmckc"))]
  {
    hide Strip;
  }

  // ---------------------------------------------------------------- deleting an engagement

  /** The rows of every other engagement are as they were. */
  ghost predicate OthersKept(v: Vault, v': Vault, e: nat) {
    OwnersKept(v, v', e) && EdgesKept(v, v', e) && MappingsKept(v, v', e)
  }

  ghost predicate OwnersKept(v: Vault, v': Vault, e: nat) {
    && v'.users == v.users
    && v'.engagements - {e} == v.engagements - {e} && v'.requests - {e} == v.requests - {e}
    && (forall i <- v.nodes :: v.nodes[i].engagement != e ==> i in v'.nodes && v'.nodes[i] == v.nodes[i])
    && (forall i <- v.loot :: v.loot[i].engagement != e ==> i in v'.loot && v'.loot[i] == v.loot[i])
    && (forall i <- v.credentials :: v.credentials[i] != e ==> i in v'.credentials && v'.credentials[i] == v.credentials[i])
    && (forall i <- v.iocs :: v.iocs[i] != e ==> i in v'.iocs && v'.iocs[i] == v.iocs[i])
    && (forall i <- v.entries :: v.entries[i].engagement != e ==> i in v'.entries && v'.entries[i] == v.entries[i])
    && (forall i <- v.findings :: v.findings[i].engagement != e ==> i in v'.findings && v'.findings[i] == v.findings[i])
  }

  ghost predicate EdgesKept(v: Vault, v': Vault, e: nat) {
    forall i <- v.edges :: v.edges[i].engagement != e ==> i in v'.edges && v'.edges[i] == v.edges[i]
  }

  ghost predicate MappingsKept(v: Vault, v': Vault, e: nat) {
    forall i <- v.mappings :: v.mappings[i].engagement != e ==> i in v'.mappings && v'.mappings[i] == v.mappings[i]
  }

  /** Deleting an engagement touches no row of another one, whatever its rows were linked to. */
  lemma OthersStay(v: Vault, actor: nat, e: nat, elsewhere: bool)
    requires VaultOk(v)
    ensures OthersKept(v, ApproveDeletion(v, actor, e, elsewhere).0, e)
  {
    WithoutKeepsOthers(v, e);
    SameKept(v, e);
    OneOrOther(v, actor, e, elsewhere);
    hide *;
  }

  lemma OneOrOther(v: Vault, actor: nat, e: nat, elsewhere: bool)
    ensures ApproveDeletion(v, actor, e, elsewhere).0 in {v, WithoutEngagement(v, e)}
  {
    hide WithoutEngagement, IsActive;
  }

  lemma SameKept(v: Vault, e: nat)
    ensures OthersKept(v, v, e)
  {
  }

  lemma WithoutKeepsOthers(v: Vault, e: nat)
    requires VaultOk(v)
    ensures OthersKept(v, WithoutEngagement(v, e), e)
  {
    RowsStay(v, e);
    EdgesStay(v, e);
    MappingsStay(v, e);
    hide OwnersKept, EdgesKept, MappingsKept, WithoutEngagement, VaultOk;
  }

  lemma RowsStay(v: Vault, e: nat)
    ensures OwnersKept(v, WithoutEngagement(v, e), e)
  {
    hide EdgesOutside, MappingsOutside;
  }

  lemma EdgesStay(v: Vault, e: nat)
    requires VaultOk(v)
    ensures EdgesKept(v, WithoutEngagement(v, e), e)
  {
    hide KillChainOk, LinksOk, UsersOk, RequestsOk, NodeOk, PaneOf, MappingsOutside;
    forall i | i in v.edges && v.edges[i].engagement != e
      ensures i in EdgesOutside(v.edges, v.nodes, e)
    {
      assert EdgeOk(v.nodes, v.edges[i]);
    }
  }

  lemma MappingsStay(v: Vault, e: nat)
    requires VaultOk(v)
    ensures MappingsKept(v, WithoutEngagement(v, e), e)
  {
    hide GraphOk, KillChainOk, UsersOk, RequestsOk, FindingOk, EntryLinksOk, EdgesOutside;
    forall i | i in v.mappings && v.mappings[i].engagement != e
      ensures !TargetIn(v.mappings[i], v.loot, v.entries, e)
    {
      assert MappingOk(v, v.mappings[i]);
    }
  }
}
