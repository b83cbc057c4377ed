/** Who may do what: there is always an active admin, and engagements only go with two people's consent. */
module VaultGovernance {
  import opened Wrappers
  import opened Text
  import opened VaultState
  import opened VaultSteps
  import opened VaultMachine
  import VaultGraph

  // ---------------------------------------------------------------- users

  lemma UsersFrame(v: Vault, v': Vault)
    requires UsersOk(v) && v'.users == v.users
    ensures UsersOk(v')
  {
    if v.users != map[] {
      var u :| u in v.users && ActiveAdmin(v, u);
      assert ActiveAdmin(v', u);
    }
  }

  lemma SetUpUsers(v: Vault, op: UserOp)
    requires UsersOk(v) && UserEnabled(v, op) && op.OpSetUp?
    ensures UsersOk(ApplyUser(v, op).0)
  {
    hide Strip;
    var r := ApplyUser(v, op);
    if r.1 == Done {
      assert r.0.users == map[op.id := User(Strip(op.username), ADMIN, true)];
      assert ActiveAdmin(r.0, op.id);
    }
  }

  lemma AddUser(v: Vault, id: nat, u: User, admin: nat)
    requires UsersOk(v) && id !in v.users && u.role in USER_ROLES && |u.username| >= 3 && !UsernameTaken(v, u.username)
    requires ActiveAdmin(v, admin)
    ensures UsersOk(v.(users := v.users[id := u]))
  {
    assert ActiveAdmin(v.(users := v.users[id := u]), admin);
  }

  lemma CreateUserUsers(v: Vault, id: nat, actor: nat, username: string, password: string, role: string)
    requires UsersOk(v) && id !in v.users
    ensures UsersOk(CreateUser(v, id, actor, username, password, role).0)
  {
    hide Strip, UsersOk, UsernameTaken, ActiveAdmin;
    if CreateUser(v, id, actor, username, password, role).1 == Done {
      AddUser(v, id, User(Strip(username), if role in USER_ROLES then role else OPERATOR, true), actor);
    }
  }

  /** Changing one user keeps the invariant when an active admin is left over. */
  lemma ChangeUser(v: Vault, id: nat, u: User, admin: nat)
    requires UsersOk(v) && id in v.users && u.username == v.users[id].username && u.role in USER_ROLES
    requires if admin == id then u.role == ADMIN && u.active else ActiveAdmin(v, admin)
    ensures UsersOk(v.(users := v.users[id := u]))
  {
    assert ActiveAdmin(v.(users := v.users[id := u]), admin);
  }

  lemma EditUserUsers(v: Vault, actor: nat, user: nat, role: Option<string>, active: bool)
    requires UsersOk(v)
    ensures UsersOk(EditUser(v, actor, user, role, active).0)
  {
    hide UsersOk;
    var r := EditUser(v, actor, user, role, active);
    if r.1 == Done {
      var now := r.0.users[user];
      assert now.role in USER_ROLES by { RolesLegal(v, user); }
      if actor != user {
        ChangeUser(v, user, now, actor);
      } else if now.role == ADMIN && now.active {
        ChangeUser(v, user, now, user);
      } else {
        assert OtherActiveAdminsExist(v.users, user);
        var other :| other in v.users && other != user && v.users[other].active && IsAdmin(v.users[other]);
        ChangeUser(v, user, now, other);
      }
    }
  }

  lemma RolesLegal(v: Vault, user: nat)
    requires UsersOk(v) && user in v.users
    ensures v.users[user].role in USER_ROLES
  {
  }

  lemma DeactivateUserUsers(v: Vault, actor: nat, user: nat)
    requires UsersOk(v)
    ensures UsersOk(DeactivateUser(v, actor, user).0)
  {
    hide UsersOk;
    var r := DeactivateUser(v, actor, user);
    if r.1 == Done {
      RolesLegal(v, user);
      if actor != user {
        ChangeUser(v, user, v.users[user].(active := false), actor);
      } else {
        assert OtherActiveAdminsExist(v.users, user);
        var other :| other in v.users && other != user && v.users[other].active && IsAdmin(v.users[other]);
        ChangeUser(v, user, v.users[user].(active := false), other);
      }
    }
  }

  lemma UsersKept(v: Vault, op: Op)
    requires UsersOk(v) && Enabled(v, op)
    ensures UsersOk(Apply(v, op).0)
  {
    hide UsersOk, SetUp, CreateUser, EditUser, DeactivateUser, ApplyGraph, ApplyLoot, ApplyRecord, ApplyEngagement;
    hide EngagementEnabled, GraphEnabled, LootEnabled, RecordEnabled;
    match op {
      case OfUsers(OpSetUp(_, _, _, _, _, _, _)) => SetUpUsers(v, op.users);
      case OfUsers(OpCreateUser(id, actor, username, password, role)) =>
        CreateUserUsers(v, id, actor, username, password, role);
      case OfUsers(OpEditUser(actor, user, role, active)) => EditUserUsers(v, actor, user, role, active);
      case OfUsers(OpDeactivateUser(actor, user)) => DeactivateUserUsers(v, actor, user);
      case OfEngagements(o) =>
        EngagementsLeaveUsers(v, o);
        UsersFrame(v, Apply(v, op).0);
      case _ => UsersFrame(v, Apply(v, op).0);
    }
  }

  lemma EngagementsLeaveUsers(v: Vault, op: EngagementOp)
    requires EngagementEnabled(v, op)
    ensures ApplyEngagement(v, op).0.users == v.users
  {
    hide CreateEngagement, UpdateEngagement, EditEngagement, RequestDeletion, CancelDeletion, IsActive;
  }

  /** Accounts are never removed, so a vault that is set up stays set up. */
  lemma UsersStay(v: Vault, op: Op)
    requires Enabled(v, op)
    ensures v.users.Keys <= Apply(v, op).0.users.Keys
  {
    hide ApplyUser, ApplyGraph, ApplyLoot, ApplyRecord, ApplyEngagement;
    hide UserEnabled, EngagementEnabled, GraphEnabled, LootEnabled, RecordEnabled;
    if op.OfEngagements? {
      EngagementsLeaveUsers(v, op.engagements);
    }
  }

  // ---------------------------------------------------------------- requests

  /** Where a pending request comes from. */
  predicate RequestExplained(v: Vault, op: EngagementOp, e: nat, r: nat) {
    || (e in v.requests && v.requests[e] == r)
    || (op == OpRequestDeletion(r, e) && ActiveAdmin(v, r) && e in v.engagements)
  }

  lemma EngagementRequestStep(v: Vault, op: EngagementOp, e: nat)
    requires EngagementEnabled(v, op) && e in ApplyEngagement(v, op).0.requests
    ensures RequestExplained(v, op, e, ApplyEngagement(v, op).0.requests[e])
  {
    hide CreateEngagement, UpdateEngagement, EditEngagement, RequestDeletion, CancelDeletion, ApproveDeletion, ActiveAdmin;
    match op {
      case OpRequestDeletion(actor, at) => RequestRequestStep(v, actor, at, e);
      case OpCancelDeletion(actor, at) => CancelRequestStep(v, actor, at, e);
      case OpApproveDeletion(actor, at, elsewhere) => ApproveRequestStep(v, actor, at, elsewhere, e);
      case _ =>
    }
  }

  lemma RequestRequestStep(v: Vault, actor: nat, at: nat, e: nat)
    requires e in RequestDeletion(v, actor, at).0.requests
    ensures RequestExplained(v, OpRequestDeletion(actor, at), e, RequestDeletion(v, actor, at).0.requests[e])
  {
    hide ActiveAdmin, Denied;
  }

  lemma CancelRequestStep(v: Vault, actor: nat, at: nat, e: nat)
    requires e in CancelDeletion(v, actor, at).0.requests
    ensures e in v.requests && v.requests[e] == CancelDeletion(v, actor, at).0.requests[e]
  {
    hide ActiveAdmin, Denied;
  }

  lemma ApproveRequestStep(v: Vault, actor: nat, at: nat, elsewhere: bool, e: nat)
    requires e in ApproveDeletion(v, actor, at, elsewhere).0.requests
    ensures e in v.requests && v.requests[e] == ApproveDeletion(v, actor, at, elsewhere).0.requests[e]
  {
    hide IsActive, TargetIn, NodesOf;
  }

  /** A pending request was there before, or is the step: made by an admin, of an existing engagement. */
  lemma RequestStep(v: Vault, op: Op, e: nat)
    requires Enabled(v, op) && e in Apply(v, op).0.requests
    ensures var r := Apply(v, op).0.requests[e];
            || (e in v.requests && v.requests[e] == r)
            || (op == OfEngagements(OpRequestDeletion(r, e)) && ActiveAdmin(v, r) && e in v.engagements)
  {
    hide ApplyUser, ApplyEngagement, ApplyGraph, ApplyLoot, ApplyRecord;
    hide UserEnabled, EngagementEnabled, GraphEnabled, LootEnabled, RecordEnabled, ActiveAdmin;
    if op.OfEngagements? {
      EngagementRequestStep(v, op.engagements, e);
    }
  }

  /** An engagement that disappears was approved by someone other than its requester. */
  lemma RemovalStep(v: Vault, op: Op, e: nat)
    requires Enabled(v, op) && e in v.engagements && e !in Apply(v, op).0.engagements
    ensures op.OfEngagements? && op.engagements.OpApproveDeletion? && op.engagements.e == e
    ensures IsActive(v, op.engagements.actor) && v.users[op.engagements.actor].role in {ADMIN, OPERATOR}
    ensures e in v.requests && v.requests[e] != op.engagements.actor
  {
    hide ApplyGraph, ApplyLoot, ApplyRecord, GraphEnabled, LootEnabled, RecordEnabled;
    match op {
      case OfUsers(o) => UsersKeepEngagements(v, o);
      case OfEngagements(o) =>
        if !o.OpApproveDeletion? {
          VaultGraph.EngagementsStay(v, o);
        } else {
          ApprovalRemoves(v, o.actor, o.e, o.elsewhere, e);
        }
      case _ =>
    }
  }

  lemma UsersKeepEngagements(v: Vault, op: UserOp)
    requires UserEnabled(v, op)
    ensures v.engagements.Keys <= ApplyUser(v, op).0.engagements.Keys
  {
    hide CreateUser, EditUser, DeactivateUser, Strip, GoodLogin;
  }

  /** Exactly when an approval deletes: a second person who is an active admin or operator, and nothing else refers to it. */
  lemma ApprovalRemoves(v: Vault, actor: nat, at: nat, elsewhere: bool, e: nat)
    requires e in v.engagements
    ensures e !in ApproveDeletion(v, actor, at, elsewhere).0.engagements <==>
            && at == e && IsActive(v, actor) && v.users[actor].role in {ADMIN, OPERATOR}
            && e in v.requests && v.requests[e] != actor && !elsewhere
  {
    hide NodesOutside, EdgesOutside, MappingsOutside;
    assert BLUETEAM != ADMIN && BLUETEAM != OPERATOR by {
      assert BLUETEAM[0] == 'b' && ADMIN[0] == 'a' && OPERATOR[0] == 'o';
    }
  }

  lemma RequestsKept(v: Vault, op: Op)
    requires RequestsOk(v) && Enabled(v, op)
    ensures RequestsOk(Apply(v, op).0)
  {
    hide Apply, Enabled;
    var v' := Apply(v, op).0;
    UsersStay(v, op);
    forall e | e in v'.requests ensures e in v'.engagements && v'.requests[e] in v'.users {
      RequestStep(v, op, e);
      assert v'.requests[e] in v'.users.Keys;
      if e !in v'.engagements {
        RemovalStep(v, op, e);
        RemovalClearsRequest(v, op, e);
        assert false;
      }
    }
  }

  lemma RemovalClearsRequest(v: Vault, op: Op, e: nat)
    requires Enabled(v, op) && op.OfEngagements? && op.engagements.OpApproveDeletion? && op.engagements.e == e
    requires e in v.engagements && e !in Apply(v, op).0.engagements
    ensures e !in Apply(v, op).0.requests
  {
    hide ActiveAdmin, IsActive, TargetIn, NodesOf;
  }

  // ---------------------------------------------------------------- deletions over a run

  /** The request made at step j by r is pending ever since, up to vault k. */
  predicate PendingSince(ops: seq<Op>, vaults: seq<Vault>, e: nat, r: nat, j: nat, k: nat)
    requires |vaults| == |ops| + 1 && j < k < |vaults|
  {
    && ops[j] == OfEngagements(OpRequestDeletion(r, e))
    && ActiveAdmin(vaults[j], r)
    && (forall i :: j < i <= k ==> e in vaults[i].requests && vaults[i].requests[e] == r)
  }

  lemma {:induction false} PendingHasOrigin(ops: seq<Op>, vaults: seq<Vault>, k: nat, e: nat) returns (j: nat)
    requires IsRun(ops, vaults) && k < |vaults| && e in vaults[k].requests
    ensures j < k && PendingSince(ops, vaults, e, vaults[k].requests[e], j, k)
    decreases k
  {
    hide Apply, Enabled, ActiveAdmin;
    assert k > 0;
    assert Enabled(vaults[k - 1], ops[k - 1]) && vaults[k] == Apply(vaults[k - 1], ops[k - 1]).0;
    RequestStep(vaults[k - 1], ops[k - 1], e);
    if e in vaults[k - 1].requests && vaults[k - 1].requests[e] == vaults[k].requests[e] {
      j := PendingHasOrigin(ops, vaults, k - 1, e);
    } else {
      j := k - 1;
    }
  }

  /**
    Every engagement that disappears in a run is deleted by an approval of a
    request that is still pending since an earlier step, made by somebody else
    who was an active admin at that moment; the approver is an active admin or
    operator.
   */
  lemma DeletionNeedsTwo(ops: seq<Op>, vaults: seq<Vault>, k: nat, e: nat) returns (requester: nat, approver: nat, j: nat)
    requires IsRun(ops, vaults) && k < |ops|
    requires e in vaults[k].engagements && e !in vaults[k + 1].engagements
    ensures ops[k].OfEngagements? && ops[k].engagements.OpApproveDeletion?
    ensures ops[k].engagements.e == e && ops[k].engagements.actor == approver
    ensures IsActive(vaults[k], approver) && vaults[k].users[approver].role in {ADMIN, OPERATOR}
    ensures j < k && PendingSince(ops, vaults, e, requester, j, k)
    ensures approver != requester
  {
    hide Apply, Enabled, ActiveAdmin, IsActive, PendingSince;
    assert Enabled(vaults[k], ops[k]) && vaults[k + 1] == Apply(vaults[k], ops[k]).0;
    RemovalStep(vaults[k], ops[k], e);
    requester, approver := vaults[k].requests[e], ops[k].engagements.actor;
    j := PendingHasOrigin(ops, vaults, k, e);
  }

  /** And two are enough: any active admin and any other active admin or operator can delete an engagement together. */
  lemma TwoCanDelete(v: Vault, requester: nat, approver: nat, e: nat)
    requires e in v.engagements && e !in v.requests && ActiveAdmin(v, requester) && approver != requester
    requires IsActive(v, approver) && v.users[approver].role in {ADMIN, OPERATOR}
    ensures RequestDeletion(v, requester, e).1 == Done
    ensures ApproveDeletion(RequestDeletion(v, requester, e).0, approver, e, false).1 == Done
    ensures e !in ApproveDeletion(RequestDeletion(v, requester, e).0, approver, e, false).0.engagements
    ensures ApproveDeletion(RequestDeletion(v, requester, e).0, requester, e, false).0 == RequestDeletion(v, requester, e).0
  {
    hide WithoutEngagement;
    var pending := RequestDeletion(v, requester, e).0;
    assert pending == v.(requests := v.requests[e := requester]);
    ApprovalRemoves(pending, approver, e, false, e);
    ApprovalRemoves(pending, requester, e, false, e);
  }
}
