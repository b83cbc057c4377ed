/** Exactly which requests are carried out, in the words a caller would send. */
module VaultAcceptance {
  import opened Wrappers
  import opened Text
  import opened Times
  import opened VaultState
  import opened VaultSteps
  import opened VaultEffects

  // ---------------------------------------------------------------- nodes and edges

  /** Targets and victims live on the pane of the targets, everything else on the other. */
  predicate LivesOn(role: Option<string>, pane: Pane) {
    match pane
    case Targets => role == Some("target") || role == Some("victim")
    case Infrastructure => role != Some("target") && role != Some("victim")
  }

  predicate TypeAllowed(pane: Pane, nodeType: Option<string>) {
    || nodeType in {Some("hostname"), Some("ip_address"), Some("domain"), Some("region"), Some("cloud_provider")}
    || (pane == Targets
        && nodeType in {Some("file_share"), Some("cloud_storage"), Some("database"), Some("wiki"),
                        Some("source_control"), Some("ticketing"), Some("collaboration"), Some("backup_system")})
  }

  predicate RoleAllowed(pane: Pane, role: Option<string>) {
    match pane
    case Targets => role in {Some("target"), Some("victim")}
    case Infrastructure =>
      role in {None, Some("redirector"), Some("team_server"), Some("pivot"), Some("proxy"), Some("C2"), Some("OSINT"),
               Some("other")}
  }

  predicate StatusAllowed(pane: Pane, status: Option<string>) {
    match pane
    case Targets => status in {None, Some("healthy"), Some("isolated"), Some("dead")}
    case Infrastructure => status in {None, Some("healthy"), Some("burned")}
  }

  /** The pane a node is found on is that of its role, and the fields each pane takes are these. */
  lemma ChoicesAre(pane: Pane, text: Option<string>)
    ensures PaneOf(text) == pane <==> LivesOn(text, pane)
    ensures text.Some? && TypeFits(pane, text.value) <==> TypeAllowed(pane, text)
    ensures RoleFits(pane, text) <==> RoleAllowed(pane, text)
    ensures StatusFits(pane, text) <==> StatusAllowed(pane, text)
  {
  }

  /** A node is created exactly when it has a name and a type, role and status its pane takes; an empty role or status is none. */
  lemma NodeAcceptedIff(v: Vault, id: nat, pane: Pane, e: nat, nodeType: Option<string>, name: Option<string>,
                        role: Option<string>, status: Option<string>)
    requires id !in v.nodes
    ensures CreateNode(v, id, pane, e, nodeType, name, role, status).1 == Done <==>
      && e in v.engagements && name.Some? && name.value != ""
      && TypeAllowed(pane, nodeType) && RoleAllowed(pane, Asked(role)) && StatusAllowed(pane, Asked(status))
  {
    ChoicesAre(pane, nodeType);
    ChoicesAre(pane, Asked(role));
    ChoicesAre(pane, Asked(status));
    assert !TypeAllowed(pane, Some(""));
    hide TypeFits, RoleFits, StatusFits, TypeAllowed, RoleAllowed, StatusAllowed, Strip;
  }

  /** A node's PATCH is carried out exactly when the node is on the pane and every field it names would be taken there. */
  lemma NodePatchAcceptedIff(v: Vault, pane: Pane, e: nat, id: nat, patch: NodePatch)
    ensures UpdateNode(v, pane, e, id, patch).1 == Done <==>
      && id in v.nodes && v.nodes[id].engagement == e && LivesOn(v.nodes[id].role, pane)
      && (patch.nodeType.Some? ==> TypeAllowed(pane, patch.nodeType.value))
      && (patch.name.Some? ==> patch.name.value.Some? && Strip(patch.name.value.value) != "")
      && (patch.role.Some? ==> RoleAllowed(pane, Asked(patch.role.value)))
      && (patch.status.Some? ==> StatusAllowed(pane, Asked(patch.status.value)))
  {
    if id in v.nodes {
      ChoicesAre(pane, v.nodes[id].role);
    }
    ChoicesAre(pane, patch.nodeType.GetOr(None));
    ChoicesAre(pane, Asked(patch.role.GetOr(None)));
    ChoicesAre(pane, Asked(patch.status.GetOr(None)));
    hide TypeFits, RoleFits, StatusFits, PaneOf, LivesOn, TypeAllowed, RoleAllowed, StatusAllowed, Strip, Patched;
  }

  /** The infrastructure routes delete any node of the engagement, the targets routes only targets. */
  lemma NodeDeletedIff(v: Vault, pane: Pane, e: nat, id: nat)
    ensures DeleteNode(v, pane, e, id).1 == Done <==>
      id in v.nodes && v.nodes[id].engagement == e && (pane == Targets ==> LivesOn(v.nodes[id].role, Targets))
  {
    if id in v.nodes {
      ChoicesAre(Targets, v.nodes[id].role);
    }
    hide PaneOf, LivesOn, WithoutNode;
  }

  predicate IsNodeOf(v: Vault, pane: Pane, e: nat, id: nat) {
    id in v.nodes && v.nodes[id].engagement == e && LivesOn(v.nodes[id].role, pane)
  }

  lemma NodeOfIs(v: Vault, pane: Pane, e: nat, id: nat)
    ensures HasNode(v, pane, e, id) <==> IsNodeOf(v, pane, e, id)
  {
    if id in v.nodes {
      ChoicesAre(pane, v.nodes[id].role);
    }
  }

  /** An edge is created exactly between two different nodes of the engagement that live on the pane. */
  lemma EdgeAcceptedIff(v: Vault, id: nat, pane: Pane, e: nat, source: Option<nat>, target: Option<nat>)
    requires id !in v.edges
    ensures CreateEdge(v, id, pane, e, source, target).1 == Done <==>
      && e in v.engagements && source.Some? && target.Some? && source.value != target.value
      && source.value != 0 && IsNodeOf(v, pane, e, source.value)
      && target.value != 0 && IsNodeOf(v, pane, e, target.value)
  {
    NodeOfIs(v, pane, e, source.GetOr(0));
    NodeOfIs(v, pane, e, target.GetOr(0));
    hide HasNode, IsNodeOf;
  }

  // ---------------------------------------------------------------- engagements and entries

  /** An engagement is created exactly with a name, a client and one of the two models, which may be left out. */
  lemma EngagementAcceptedIff(v: Vault, id: nat, name: Option<string>, client: Option<string>, model: Option<string>)
    requires id !in v.engagements
    ensures CreateEngagement(v, id, name, client, model).1 == Done <==>
      && Asked(name).Some? && Asked(client).Some? && model in {None, Some(""), Some("lmckc"), Some("ukc")}
  {
    hide Strip;
  }

  /** An entry is created exactly at a stage of its engagement's model, with a title and a range of times that is in order. */
  lemma EntryAcceptedIff(v: Vault, id: nat, e: nat, stage: Option<string>, title: Option<string>, startedAt: Option<Time>,
                         endedAt: Option<Time>, dialect: Dialect, createdAt: int, lootIds: Option<seq<nat>>)
    requires id !in v.entries
    ensures CreateEntry(v, id, e, stage, title, startedAt, endedAt, dialect, createdAt, lootIds).1 == Done <==>
      && e in v.engagements && stage.Some? && stage.value in StagesFor(v.engagements[e].model)
      && title.Some? && title.value != "" && CheckRange(startedAt, endedAt) == Valid
  {
    assert forall model :: "" !in StagesFor(model);
    hide StagesFor, CheckRange, StoredTime, Strip;
  }

  // ---------------------------------------------------------------- users

  /** Somebody else is an active admin. */
  predicate AnotherInCharge(v: Vault, user: nat) {
    exists u <- v.users :: u != user && v.users[u].active && v.users[u].role == "admin"
  }

  /** An edit is carried out exactly when an active admin asks for it and an admin remains. */
  lemma EditAcceptedIff(v: Vault, actor: nat, user: nat, role: Option<string>, active: bool)
    ensures EditUser(v, actor, user, role, active).1 == Done <==>
      && actor in v.users && v.users[actor].active && v.users[actor].role == "admin" && user in v.users
      && (v.users[user].role == "admin" ==>
            || AnotherInCharge(v, user)
            || (active && (role in {None, Some("admin")} || role.value !in {"operator", "agent", "blueteam"})))
  {
  }

  /** Deactivating clears the flag of that user alone, exactly when an active admin asks for it and an admin remains. */
  lemma DeactivatedIff(v: Vault, actor: nat, user: nat)
    ensures var r := DeactivateUser(v, actor, user);
      && (r.1 == Done <==>
            && actor in v.users && v.users[actor].active && v.users[actor].role == "admin" && user in v.users
            && (v.users[user].role == "admin" ==> AnotherInCharge(v, user)))
      && (r.1 == Done ==>
            r.0 == v.(users := v.users[user := User(v.users[user].username, v.users[user].role, false)]))
  {
  }
}
