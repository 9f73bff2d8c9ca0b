/**
 * The approval chain resolved from the directory, and the guard that decides who may act on its
 * steps: the chain names exactly the people the guard admits.
 */
module ApprovalAuthority {
  import opened Wrappers
  import opened Trees
  import opened Adjacency
  import opened NestedSet
  import opened Permissions
  import opened Approvals

  // ---- the production chain lookups ------------------------------------------------

  function AddRosterLeaders(leaders: seq<string>, group: string, roster: seq<RosterEdge>): seq<string>
    decreases |roster|
  {
    if roster == [] then leaders
    else
      var e := roster[0];
      var grown := if e.group == group && (e.role == Leads || e.role == CoLeads) && e.member != ""
          && e.member !in leaders
                   then leaders + [e.member] else leaders;
      AddRosterLeaders(grown, group, roster[1..])
  }

  /** The accountable leader, then the roster leaders not already named. */
  function NodeLeaders(dir: Directory, row: TreeRow): seq<string> {
    AddRosterLeaders(if Truthy(row.leader) then [row.leader.value] else [], row.name, dir.roster)
  }

  /** One node per group of the path that has a row and a leader, in path order. */
  function ChainNodes(dir: Directory, path: seq<string>): seq<ChainNode> {
    if path == [] then []
    else
      var rest := ChainNodes(dir, path[1..]);
      match GroupBounds(dir, path[0])
      case None => rest
      case Some(row) =>
        var leaders := NodeLeaders(dir, row);
        if leaders == [] then rest else [ChainNode(row.name, leaders)] + rest
  }

  /** `chain_nodes_for_group`: the nodes on the group's path to the root. */
  function ChainNodesFor(dir: Directory, group: string): seq<ChainNode> {
    match Ancestors(group, ParentMapOf(dir.groups))
    case Success(chain) => ChainNodes(dir, [group] + chain)
    case Failure(_) => []
  }

  lemma {:induction false} AddRosterLeadersMembers(leaders: seq<string>, group: string, roster: seq<RosterEdge>,
                                                   m: string)
    ensures m in AddRosterLeaders(leaders, group, roster) <==>
            || m in leaders
            || (m != "" && exists e ::
                  e in roster && e.group == group && e.member == m && (e.role == Leads || e.role == CoLeads))
    decreases |roster|
  {
    if roster != [] {
      var e := roster[0];
      var grown := if e.group == group && (e.role == Leads || e.role == CoLeads) && e.member != ""
          && e.member !in leaders
                   then leaders + [e.member] else leaders;
      AddRosterLeadersMembers(grown, group, roster[1..], m);
      assert roster == [e] + roster[1..];
    }
  }

  lemma NodeLeadersLead(dir: Directory, row: TreeRow, m: string)
    requires WellKeyed(dir)
    ensures m in NodeLeaders(dir, row) <==> m != "" && LeadsRow(dir, m, row)
  {
    AddRosterLeadersMembers(if Truthy(row.leader) then [row.leader.value] else [], row.name, dir.roster, m);
  }

  lemma {:induction false} ChainNodesLead(dir: Directory, path: seq<string>, m: string)
    requires WellKeyed(dir)
    ensures (exists n :: n in ChainNodes(dir, path) && m in n.leaders) <==>
            m != "" && exists l :: l in dir.groups && l.name in path && LeadsRow(dir, m, l)
  {
    if path != [] {
      ChainNodesLead(dir, path[1..], m);
      var rest := ChainNodes(dir, path[1..]);
      assert path == [path[0]] + path[1..];
      if GroupBounds(dir, path[0]).Some? {
        var row := GroupBounds(dir, path[0]).value;
        NamedRow(dir.groups, path[0]);
        NodeLeadersLead(dir, row, m);
        forall l | l in dir.groups && l.name == path[0] ensures l == row { RowsInMap(dir.groups, l); }
        if m in NodeLeaders(dir, row) {
          assert ChainNodes(dir, path)[0].leaders == NodeLeaders(dir, row);
        }
        if n :| n in rest && m in n.leaders { assert n in ChainNodes(dir, path); }
      } else {
        forall l | l in dir.groups ensures l.name != path[0] { RowsInMap(dir.groups, l); }
      }
    }
  }

  lemma {:induction false} VisitsAreLeaders(nodes: seq<ChainNode>, m: string)
    ensures (exists v :: v in Visits(nodes) && v.leader == m) <==> exists n :: n in nodes && m in n.leaders
  {
    if nodes != [] {
      var init, last := nodes[..|nodes| - 1], nodes[|nodes| - 1];
      VisitsAreLeaders(init, m);
      assert nodes == init + [last];
      if m in last.leaders {
        var i :| 0 <= i < |last.leaders| && last.leaders[i] == m;
        assert NodeVisits(last, |init|)[i] in Visits(nodes);
      }
    }
  }

  // ---- who is on the chain ---------------------------------------------------------

  /** Somebody the leader walk has a step for. */
  ghost predicate HasLeaderStep(steps: seq<StepSpec>, m: string) {
    exists k :: 0 <= k < |steps| && steps[k].level != BranchAdminLevel && steps[k].approverMember == Some(m)
  }

  lemma WalkNamesLeaders(dir: Directory, group: string, gateway: ChainGateway, m: string)
    requires WellKeyed(dir) && ValidNestedSet(dir.groups) && GroupBounds(dir, group).Some?
    requires gateway.nodes == ChainNodesFor(dir, group)
    ensures (exists v :: v in Visits(gateway.nodes) && v.leader == m) <==> m != "" && LeadsAtOrAbove(dir, m, group)
  {
    var P := ParentMapOf(dir.groups);
    WalksEnd(dir.groups, group);
    var path := [group] + Ancestors(group, P).value;
    VisitsAreLeaders(gateway.nodes, m);
    ChainNodesLead(dir, path, m);
    forall l | l in dir.groups ensures l.name in path <==> AtOrAbove(l.name, group, P) {
      AtOrAboveIsAncestor(l.name, group, P);
    }
  }

  lemma UncappedStep(requestedBy: string, policy: ApprovalPolicy, gateway: ChainGateway, k: nat)
    requires !Capped(policy)
    ensures var chain := Chain(requestedBy, policy, gateway);
            var leaders := LeaderSteps(Visits(gateway.nodes), requestedBy, policy, gateway);
            && (k < |leaders| ==> k < |chain| && chain[k] == leaders[k])
            && (|leaders| <= k < |chain| ==> chain[k].level == BranchAdminLevel)
  {
  }

  lemma ChainNamesIffWalk(requestedBy: string, policy: ApprovalPolicy, gateway: ChainGateway, m: string)
    requires !Capped(policy)
    ensures HasLeaderStep(Chain(requestedBy, policy, gateway), m) <==>
            m != "" && exists v :: v in Visits(gateway.nodes) && v.leader == m
  {
    var visits := Visits(gateway.nodes);
    var chain, leaders := Chain(requestedBy, policy, gateway), LeaderSteps(visits, requestedBy, policy, gateway);
    LeaderStepsAreFirstVisits(visits, requestedBy, policy, gateway);
    if m != "" && exists v :: v in visits && v.leader == m {
      var v :| v in visits && v.leader == m;
      var k :| 0 <= k < |leaders| && leaders[k].approverMember == Some(v.leader);
      UncappedStep(requestedBy, policy, gateway, k);
    }
    if k :| 0 <= k < |chain| && chain[k].level != BranchAdminLevel && chain[k].approverMember == Some(m) {
      UncappedStep(requestedBy, policy, gateway, k);
      assert visits[FirstVisits(visits)[k]] in visits;
    }
  }

  /**
   * Without a depth cap the chain for a group has a step for exactly the members who lead the group
   * or a group above it.
   */
  lemma ChainNamesLeadersAtOrAbove(dir: Directory, group: string, requestedBy: string, policy: ApprovalPolicy,
                                   gateway: ChainGateway, m: string)
    requires WellKeyed(dir) && ValidNestedSet(dir.groups) && GroupBounds(dir, group).Some?
    requires policy.maxApprovalLevels == None || policy.maxApprovalLevels.value < 0
    requires gateway.nodes == ChainNodesFor(dir, group)
    ensures HasLeaderStep(Chain(requestedBy, policy, gateway), m) <==> m != "" && LeadsAtOrAbove(dir, m, group)
  {
    WalkNamesLeaders(dir, group, gateway, m);
    ChainNamesIffWalk(requestedBy, policy, gateway, m);
  }

  /** Under any policy, whoever a leader step names leads the group or a group above it. */
  lemma LeaderStepsNameLeaders(dir: Directory, group: string, requestedBy: string, policy: ApprovalPolicy,
                               gateway: ChainGateway, step: StepSpec)
    requires WellKeyed(dir) && ValidNestedSet(dir.groups) && GroupBounds(dir, group).Some?
    requires gateway.nodes == ChainNodesFor(dir, group)
    requires step in Chain(requestedBy, policy, gateway) && step.level != BranchAdminLevel
    ensures step.approverMember.Some? && step.approverMember.value != ""
    ensures step.approverUser == if step.approverMember.value in gateway.userOf
                                 then Some(gateway.userOf[step.approverMember.value]) else None
    ensures LeadsAtOrAbove(dir, step.approverMember.value, group)
  {
    var chain, visits := Chain(requestedBy, policy, gateway), Visits(gateway.nodes);
    var from := ChainShape(requestedBy, policy, gateway);
    var k :| 0 <= k < |chain| && chain[k] == step;
    LeaderStepsAreFirstVisits(visits, requestedBy, policy, gateway);
    var v := visits[FirstVisits(visits)[from[k]]];
    assert v in visits && step.approverMember == Some(v.leader);
    WalkNamesLeaders(dir, group, gateway, v.leader);
  }

  // ---- who may decide --------------------------------------------------------------

  function ViewOf(step: StepSpec, docBranch: Option<string>, docGroup: Option<string>): StepView {
    StepView(step.level, step.approverMember, step.approverUser, docBranch, docGroup)
  }

  /** A member's linked user and a user's linked member are one relation, between named parties. */
  ghost predicate LinksAgree(dir: Directory, userOf: map<string, string>) {
    && (forall u :: u in dir.memberOf ==> u != "" && dir.memberOf[u] in userOf && userOf[dir.memberOf[u]] == u)
    && (forall m :: m in userOf ==> userOf[m] in dir.memberOf && dir.memberOf[userOf[m]] == m)
  }

  /**
   * For every leader step the chain of a group produces, the guard admits exactly the step's own
   * approver, provided the group's branch is open to them: chain membership and authority are the same
   * thing, bypass roles included.
   */
  lemma DecidersAreApprovers(dir: Directory, group: string, requestedBy: string, policy: ApprovalPolicy,
                             gateway: ChainGateway, step: StepSpec, user: string)
    requires WellKeyed(dir) && ValidNestedSet(dir.groups) && GroupBounds(dir, group).Some?
    requires gateway.nodes == ChainNodesFor(dir, group)
    requires LinksAgree(dir, gateway.userOf)
    requires step in Chain(requestedBy, policy, gateway) && step.level != BranchAdminLevel
    ensures CanDecideApprovalStep(dir, ViewOf(step, gateway.branch, Some(group)), user) <==>
            && user in dir.memberOf && step.approverMember == Some(dir.memberOf[user])
            && (|| gateway.branch == None || gateway.branch == Some("")
                || (user in dir.branchPermissions && gateway.branch.value in dir.branchPermissions[user])
                || (user in dir.roles && (OrgAdmin in dir.roles[user] || Auditor in dir.roles[user])))
  {
    var view := ViewOf(step, gateway.branch, Some(group));
    LeaderStepsNameLeaders(dir, group, requestedBy, policy, gateway, step);
    assert IsNamed(dir, view, user) <==> user in dir.memberOf && step.approverMember == Some(dir.memberOf[user]);
    LeaderStepDeciders(dir, view, user);
  }

  /**
   * For the branch-admin step of every resolved chain, the guard admits exactly its named user or linked
   * member and the branch admins, each only with a permission for the branch or a role that sees all.
   */
  lemma AdminStepIsForBranchAdmins(dir: Directory, group: Option<string>, requestedBy: string, policy: ApprovalPolicy,
                                   gateway: ChainGateway, step: StepSpec, user: string)
    requires WellKeyed(dir) && step in Chain(requestedBy, policy, gateway) && step.level == BranchAdminLevel
    ensures gateway.branch.Some? && gateway.branch.value != ""
    ensures CanDecideApprovalStep(dir, ViewOf(step, gateway.branch, group), user) <==>
            && (|| (gateway.adminUser == Some(user) && user != "")
                || (user in dir.memberOf && gateway.adminMember == Some(dir.memberOf[user]))
                || (user in dir.roles && BranchAdmin in dir.roles[user]))
            && (|| (user in dir.branchPermissions && gateway.branch.value in dir.branchPermissions[user])
                || (user in dir.roles && (OrgAdmin in dir.roles[user] || Auditor in dir.roles[user])))
  {
    var from := ChainShape(requestedBy, policy, gateway);
    var i :| 0 <= i < |Chain(requestedBy, policy, gateway)| && Chain(requestedBy, policy, gateway)[i] == step;
    AdminStepDeciders(dir, ViewOf(step, gateway.branch, group), user);
  }

  /** The lookup of the branch's admin: the member linked to some branch admin with a permission for the branch. */
  ghost predicate AdminIsLookedUp(dir: Directory, gateway: ChainGateway) {
    gateway.branch.Some? && Truthy(gateway.adminMember) ==>
      exists u :: && u in dir.roles && BranchAdmin in dir.roles[u] && u in dir.memberOf
                  && gateway.adminMember == Some(dir.memberOf[u])
                  && u in dir.branchPermissions && gateway.branch.value in dir.branchPermissions[u]
  }

  /** Whoever the lookup names on the branch-admin step can decide it, and so the chain never ends in a dead step. */
  lemma AdminStepCanBeDecided(dir: Directory, group: Option<string>, requestedBy: string, policy: ApprovalPolicy,
                              gateway: ChainGateway, step: StepSpec) returns (user: string)
    requires WellKeyed(dir) && AdminIsLookedUp(dir, gateway)
    requires step in Chain(requestedBy, policy, gateway) && step.level == BranchAdminLevel
    ensures user in dir.memberOf && step.approverMember == Some(dir.memberOf[user])
    ensures CanDecideApprovalStep(dir, ViewOf(step, gateway.branch, group), user)
  {
    var from := ChainShape(requestedBy, policy, gateway);
    var i :| 0 <= i < |Chain(requestedBy, policy, gateway)| && Chain(requestedBy, policy, gateway)[i] == step;
    user :| && user in dir.roles && BranchAdmin in dir.roles[user] && user in dir.memberOf
            && gateway.adminMember == Some(dir.memberOf[user])
            && user in dir.branchPermissions && gateway.branch.value in dir.branchPermissions[user];
    AdminStepIsForBranchAdmins(dir, group, requestedBy, policy, gateway, step, user);
  }
}
