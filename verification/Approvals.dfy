/** Approval-chain resolution and step advancement of `approvals.py`. */
module Approvals {
  import opened Wrappers
  import opened Permissions

  datatype ApprovalPolicy = ApprovalPolicy(
    requireBranchAdminFinal: bool, maxApprovalLevels: Option<int>, allowSelfApproval: bool)

  datatype ChainNode = ChainNode(group: string, leaders: seq<string>)

  datatype StepStatus = Pending | Approved | Rejected | Skipped | Recused

  datatype StepSpec = StepSpec(idx: nat, level: ApproverLevel, approverMember: Option<string>,
                               approverUser: Option<string>, approverGroup: Option<string>, status: StepStatus)

  datatype ApprovalError = GroupRequired | RequesterRequired | NoApprover

  /** What the chain gateway returns for one group: nodes own group first, admin lookups for its branch. */
  datatype ChainGateway = ChainGateway(nodes: seq<ChainNode>, userOf: map<string, string>, branch: Option<string>,
                                   adminMember: Option<string>, adminUser: Option<string>)

  function UserForMember(gateway: ChainGateway, member: string): Option<string> {
    if member in gateway.userOf then Some(gateway.userOf[member]) else None
  }

  function LevelForDepth(depth: nat): ApproverLevel {
    if depth <= 1 then ParentLevel else AncestorLevel
  }

  // ---- the leader walk -------------------------------------------------------------

  /** One leader as the walk meets them. */
  datatype Visit = Visit(depth: nat, group: string, leader: string)

  function NodeVisits(node: ChainNode, depth: nat): seq<Visit> {
    seq(|node.leaders|, i requires 0 <= i < |node.leaders| => Visit(depth, node.group, node.leaders[i]))
  }

  function Visits(nodes: seq<ChainNode>): seq<Visit> {
    if nodes == [] then []
    else Visits(nodes[..|nodes| - 1]) + NodeVisits(nodes[|nodes| - 1], |nodes| - 1)
  }

  /** Position `i` is where a (named) leader is met for the first time. */
  predicate IsFirstVisit(visits: seq<Visit>, i: nat) {
    i < |visits| && visits[i].leader != "" && forall j :: 0 <= j < i ==> visits[j].leader != visits[i].leader
  }

  function FirstVisits(visits: seq<Visit>): seq<nat>
    ensures forall k :: 0 <= k < |FirstVisits(visits)| ==> FirstVisits(visits)[k] < |visits|
  {
    if visits == [] then []
    else
      var last := |visits| - 1;
      FirstVisits(visits[..last]) + (if IsFirstVisit(visits, last) then [last] else [])
  }

  function LeaderStep(visit: Visit, idx: nat, requestedBy: string, policy: ApprovalPolicy, gateway: ChainGateway)
      : StepSpec
  {
    StepSpec(idx, LevelForDepth(visit.depth), Some(visit.leader), UserForMember(gateway, visit.leader),
             Some(visit.group),
             if visit.leader == requestedBy && !policy.allowSelfApproval then Skipped else Pending)
  }

  function LeaderSteps(visits: seq<Visit>, requestedBy: string, policy: ApprovalPolicy, gateway: ChainGateway)
      : seq<StepSpec>
  {
    var first := FirstVisits(visits);
    seq(|first|, k requires 0 <= k < |first| => LeaderStep(visits[first[k]], k, requestedBy, policy, gateway))
  }

  /** `FirstVisits` lists exactly the first visits, nearest first. */
  lemma {:induction false} FirstVisitsMeaning(visits: seq<Visit>)
    ensures forall i :: i in FirstVisits(visits) <==> IsFirstVisit(visits, i)
    ensures forall j, k :: 0 <= j < k < |FirstVisits(visits)| ==> FirstVisits(visits)[j] < FirstVisits(visits)[k]
  {
    if visits != [] {
      var last := |visits| - 1;
      var init := visits[..last];
      FirstVisitsMeaning(init);
      forall i: nat ensures i in FirstVisits(visits) <==> IsFirstVisit(visits, i) {
        if i < last {
          assert visits[i] == init[i];
          assert forall j :: 0 <= j < i ==> visits[j] == init[j];
          assert IsFirstVisit(visits, i) <==> IsFirstVisit(init, i);
        }
      }
    }
  }

  lemma FirstVisitsGrow(visits: seq<Visit>, v: Visit)
    ensures FirstVisits(visits + [v]) ==
            FirstVisits(visits) + (if IsFirstVisit(visits + [v], |visits|) then [|visits|] else [])
  {
    assert (visits + [v])[..|visits|] == visits;
  }

  lemma LeaderStepsGrow(visits: seq<Visit>, v: Visit, requestedBy: string, policy: ApprovalPolicy,
                        gateway: ChainGateway)
    ensures var steps := LeaderSteps(visits, requestedBy, policy, gateway);
            LeaderSteps(visits + [v], requestedBy, policy, gateway) ==
            steps + (if IsFirstVisit(visits + [v], |visits|)
                     then [LeaderStep(v, |steps|, requestedBy, policy, gateway)] else [])
  {
    FirstVisitsGrow(visits, v);
  }

  /** What the walk holds in `seenLeaders` after `visited`. */
  ghost function LeadersIn(visited: seq<Visit>): set<string> {
    set v | v in visited && v.leader != "" :: v.leader
  }

  lemma FreshIffUnseen(visited: seq<Visit>, v: Visit)
    ensures IsFirstVisit(visited + [v], |visited|) <==> v.leader != "" && v.leader !in LeadersIn(visited)
    ensures LeadersIn(visited + [v]) == LeadersIn(visited) + (if v.leader != "" then {v.leader} else {})
  {
    var grown := visited + [v];
    assert forall j :: 0 <= j < |visited| ==> grown[j] == visited[j];
    assert forall w :: w in grown <==> w in visited || w == v;
    if v.leader in LeadersIn(visited) {
      var w :| w in visited && w.leader == v.leader;
      var j :| 0 <= j < |visited| && visited[j] == w;
      assert grown[j].leader == v.leader;
    }
  }

  lemma WalkStep(visited: seq<Visit>, v: Visit, requestedBy: string, policy: ApprovalPolicy, gateway: ChainGateway)
    ensures var steps := LeaderSteps(visited, requestedBy, policy, gateway);
            LeaderSteps(visited + [v], requestedBy, policy, gateway) ==
            if v.leader != "" && v.leader !in LeadersIn(visited)
            then steps + [LeaderStep(v, |steps|, requestedBy, policy, gateway)] else steps
    ensures LeadersIn(visited + [v]) == if v.leader != "" then LeadersIn(visited) + {v.leader} else LeadersIn(visited)
  {
    FreshIffUnseen(visited, v);
    LeaderStepsGrow(visited, v, requestedBy, policy, gateway);
  }

  /** The inner loop of the walk: one node's leaders, appended to `before` and marked in `seen`. */
  method WalkNode(node: ChainNode, depth: nat, before: seq<StepSpec>, seen: set<string>, ghost visited: seq<Visit>,
                  requestedBy: string, policy: ApprovalPolicy, gateway: ChainGateway)
    returns (specs: seq<StepSpec>, seenLeaders: set<string>)
    requires before == LeaderSteps(visited, requestedBy, policy, gateway) && seen == LeadersIn(visited)
    ensures specs == LeaderSteps(visited + NodeVisits(node, depth), requestedBy, policy, gateway)
    ensures seenLeaders == LeadersIn(visited + NodeVisits(node, depth))
  {
    specs, seenLeaders := before, seen;
    ghost var now := visited;
    var level := LevelForDepth(depth);
    for k := 0 to |node.leaders|
      invariant now == visited + NodeVisits(node, depth)[..k]
      invariant specs == LeaderSteps(now, requestedBy, policy, gateway)
      invariant seenLeaders == LeadersIn(now)
    {
      var leader := node.leaders[k];
      ghost var v := NodeVisits(node, depth)[k];
      WalkStep(now, v, requestedBy, policy, gateway);
      if leader != "" && leader !in seenLeaders {
        seenLeaders := seenLeaders + {leader};
        var isSelf := leader == requestedBy;
        var status := if isSelf && !policy.allowSelfApproval then Skipped else Pending;
        specs := specs
            + [StepSpec(|specs|, level, Some(leader), UserForMember(gateway, leader), Some(node.group), status)];
      } else {
        assert leader in seenLeaders ==> seenLeaders + {leader} == seenLeaders;
      }
      now := now + [v];
    }
    assert now == visited + NodeVisits(node, depth);
  }

  method WalkLeaders(requestedBy: string, policy: ApprovalPolicy, gateway: ChainGateway) returns (specs: seq<StepSpec>)
    ensures specs == LeaderSteps(Visits(gateway.nodes), requestedBy, policy, gateway)
  {
    specs := [];
    var seenLeaders: set<string> := {};
    for depth := 0 to |gateway.nodes|
      invariant specs == LeaderSteps(Visits(gateway.nodes[..depth]), requestedBy, policy, gateway)
      invariant seenLeaders == LeadersIn(Visits(gateway.nodes[..depth]))
    {
      assert gateway.nodes[..depth + 1][..depth] == gateway.nodes[..depth];
      specs, seenLeaders := WalkNode(gateway.nodes[depth], depth, specs, seenLeaders, Visits(gateway.nodes[..depth]),
                                     requestedBy, policy, gateway);
    }
    assert gateway.nodes[..|gateway.nodes|] == gateway.nodes;
  }

  /**
   * Leader steps are the distinct leaders of the walk, nearest first: one step per first visit, in
   * walk order, each carrying the group and depth at which its leader was met.
   */
  lemma LeaderStepsAreFirstVisits(visits: seq<Visit>, requestedBy: string, policy: ApprovalPolicy,
                                  gateway: ChainGateway)
    ensures var steps := LeaderSteps(visits, requestedBy, policy, gateway);
            && (forall v :: v in visits && v.leader != "" ==>
                  exists k :: 0 <= k < |steps| && steps[k].approverMember == Some(v.leader))
            && (forall j, k :: 0 <= j < k < |steps| ==> steps[j].approverMember != steps[k].approverMember)
            && (forall j, k :: 0 <= j < k < |steps| ==> FirstVisits(visits)[j] < FirstVisits(visits)[k])
            && (forall k :: 0 <= k < |steps| ==>
                  var v := visits[FirstVisits(visits)[k]];
                  && IsFirstVisit(visits, FirstVisits(visits)[k])
                  && steps[k].approverMember == Some(v.leader) && steps[k].approverGroup == Some(v.group)
                  && (steps[k].level == ParentLevel <==> v.depth <= 1) && steps[k].level != BranchAdminLevel
                  && (steps[k].status == Skipped <==> v.leader == requestedBy && !policy.allowSelfApproval)
                  && (steps[k].status == Pending || steps[k].status == Skipped))
  {
    var first, steps := FirstVisits(visits), LeaderSteps(visits, requestedBy, policy, gateway);
    FirstVisitsMeaning(visits);
    assert forall k :: 0 <= k < |first| ==> first[k] in first;
    forall v | v in visits && v.leader != ""
      ensures exists k :: 0 <= k < |steps| && steps[k].approverMember == Some(v.leader)
    {
      var i: nat :| i < |visits| && visits[i] == v;
      var f := EarliestVisit(visits, i);
      var k :| 0 <= k < |first| && first[k] == f;
      assert steps[k].approverMember == Some(v.leader);
    }
  }

  lemma {:induction false} EarliestVisit(visits: seq<Visit>, i: nat) returns (f: nat)
    requires i < |visits| && visits[i].leader != ""
    ensures IsFirstVisit(visits, f) && visits[f].leader == visits[i].leader
  {
    if j: nat :| j < i && visits[j].leader == visits[i].leader {
      f := EarliestVisit(visits, j);
    } else {
      f := i;
    }
  }

  // ---- the branch admin and the depth cap ------------------------------------------

  predicate HasAdminStep(policy: ApprovalPolicy, gateway: ChainGateway) {
    policy.requireBranchAdminFinal && Truthy(gateway.branch) && Truthy(gateway.adminMember)
  }

  function AdminSteps(idx: nat, policy: ApprovalPolicy, gateway: ChainGateway): seq<StepSpec> {
    if HasAdminStep(policy, gateway)
    then [StepSpec(idx, BranchAdminLevel, gateway.adminMember, gateway.adminUser, None, Pending)]
    else []
  }

  function PendingBefore(steps: seq<StepSpec>, i: nat): nat
    requires i <= |steps|
  {
    if i == 0 then 0 else PendingBefore(steps, i - 1) + (if steps[i - 1].status == Pending then 1 else 0)
  }

  /** Skipped steps are audit only; of the others the first `cap` stay. */
  predicate Kept(steps: seq<StepSpec>, cap: int, i: nat)
    requires i < |steps|
  {
    steps[i].status == Skipped || PendingBefore(steps, i) < cap
  }

  function KeptPositions(steps: seq<StepSpec>, cap: int, n: nat): (kept: seq<nat>)
    requires n <= |steps|
    ensures forall k :: 0 <= k < |kept| ==> kept[k] < n
  {
    if n == 0 then []
    else KeptPositions(steps, cap, n - 1) + (if Kept(steps, cap, n - 1) then [n - 1] else [])
  }

  function StepsAt(steps: seq<StepSpec>, positions: seq<nat>): seq<StepSpec>
    requires forall k :: 0 <= k < |positions| ==> positions[k] < |steps|
  {
    seq(|positions|, k requires 0 <= k < |positions| => steps[positions[k]])
  }

  function KeptSteps(steps: seq<StepSpec>, cap: int, n: nat): seq<StepSpec>
    requires n <= |steps|
  {
    StepsAt(steps, KeptPositions(steps, cap, n))
  }

  function Reindexed(steps: seq<StepSpec>): seq<StepSpec> {
    seq(|steps|, i requires 0 <= i < |steps| => steps[i].(idx := i))
  }

  predicate Capped(policy: ApprovalPolicy) {
    policy.maxApprovalLevels.Some? && policy.maxApprovalLevels.value >= 0
  }

  function Chain(requestedBy: string, policy: ApprovalPolicy, gateway: ChainGateway): seq<StepSpec> {
    var leaders := LeaderSteps(Visits(gateway.nodes), requestedBy, policy, gateway);
    var admin := AdminSteps(|leaders|, policy, gateway);
    if Capped(policy) then Reindexed(KeptSteps(leaders, policy.maxApprovalLevels.value, |leaders|) + admin)
    else leaders + admin
  }

  function ResolveChain(group: string, requestedBy: string, policy: ApprovalPolicy, gateway: ChainGateway)
    : Result<seq<StepSpec>, ApprovalError>
  {
    if group == "" then Failure(GroupRequired)
    else if requestedBy == "" then Failure(RequesterRequired)
    else
      var chain := Chain(requestedBy, policy, gateway);
      if exists i :: 0 <= i < |chain| && chain[i].status == Pending then Success(chain) else Failure(NoApprover)
  }

  function WithLevel(specs: seq<StepSpec>, admin: bool): seq<StepSpec> {
    if specs == [] then []
    else (if (specs[0].level == BranchAdminLevel) == admin then [specs[0]] else []) + WithLevel(specs[1..], admin)
  }

  lemma {:induction false} SplitByLevel(leaders: seq<StepSpec>, admin: seq<StepSpec>)
    requires forall s :: s in leaders ==> s.level != BranchAdminLevel
    requires |admin| <= 1 && forall s :: s in admin ==> s.level == BranchAdminLevel
    ensures WithLevel(leaders + admin, false) == leaders && WithLevel(leaders + admin, true) == admin
  {
    if leaders == [] {
      assert leaders + admin == admin;
      if admin != [] { assert admin == [admin[0]] && admin[1..] == []; }
    } else {
      assert (leaders + admin)[1..] == leaders[1..] + admin;
      SplitByLevel(leaders[1..], admin);
      assert leaders == [leaders[0]] + leaders[1..];
    }
  }

  method CapLeaders(leaderSteps: seq<StepSpec>, cap: int) returns (kept: seq<StepSpec>)
    requires cap >= 0 && forall s :: s in leaderSteps ==> s.status == Pending || s.status == Skipped
    ensures kept == KeptSteps(leaderSteps, cap, |leaderSteps|)
  {
    kept := [];
    var budget := cap;
    for i := 0 to |leaderSteps|
      invariant kept == KeptSteps(leaderSteps, cap, i)
      invariant budget == if PendingBefore(leaderSteps, i) < cap then cap - PendingBefore(leaderSteps, i) else 0
    {
      var step := leaderSteps[i];
      assert step in leaderSteps;
      if step.status == Skipped {
        kept := kept + [step];
      } else if budget > 0 {
        kept := kept + [step];
        budget := budget - 1;
      }
    }
  }

  lemma LeaderStepsAreUndecided(visits: seq<Visit>, requestedBy: string, policy: ApprovalPolicy, gateway: ChainGateway)
    ensures forall s :: s in LeaderSteps(visits, requestedBy, policy, gateway) ==>
              s.level != BranchAdminLevel && (s.status == Pending || s.status == Skipped)
  {
  }

  method ResolveApprovalChain(group: string, requestedBy: string, policy: ApprovalPolicy, gateway: ChainGateway)
    returns (r: Result<seq<StepSpec>, ApprovalError>)
    ensures r == ResolveChain(group, requestedBy, policy, gateway)
  {
    if group == "" { return Failure(GroupRequired); }
    if requestedBy == "" { return Failure(RequesterRequired); }
    var specs := WalkLeaders(requestedBy, policy, gateway);
    ghost var leaders := specs;
    if policy.requireBranchAdminFinal && Truthy(gateway.branch) && Truthy(gateway.adminMember) {
      specs := specs + [StepSpec(|specs|, BranchAdminLevel, gateway.adminMember, gateway.adminUser, None, Pending)];
    }
    assert specs == leaders + AdminSteps(|leaders|, policy, gateway);
    if policy.maxApprovalLevels.Some? && policy.maxApprovalLevels.value >= 0 {
      LeaderStepsAreUndecided(Visits(gateway.nodes), requestedBy, policy, gateway);
      SplitByLevel(leaders, AdminSteps(|leaders|, policy, gateway));
      var kept := CapLeaders(WithLevel(specs, false), policy.maxApprovalLevels.value);
      specs := Reindexed(kept + WithLevel(specs, true));
    }
    assert specs == Chain(requestedBy, policy, gateway);
    if !exists i :: 0 <= i < |specs| && specs[i].status == Pending {
      return Failure(NoApprover);
    }
    return Success(specs);
  }

  // ---- what a resolved chain looks like --------------------------------------------

  /** The positions of the pending steps before `i`. */
  function PendingPositions(steps: seq<StepSpec>, i: nat): set<nat>
    requires i <= |steps|
  {
    set j: nat | j < i && steps[j].status == Pending
  }

  lemma {:induction false} PendingBeforeCounts(steps: seq<StepSpec>, i: nat)
    requires i <= |steps|
    ensures PendingBefore(steps, i) == |PendingPositions(steps, i)|
  {
    if i == 0 {
      assert PendingPositions(steps, 0) == {};
    } else {
      PendingBeforeCounts(steps, i - 1);
      assert PendingPositions(steps, i) ==
             PendingPositions(steps, i - 1) + (if steps[i - 1].status == Pending then {i - 1} else {});
    }
  }

  /** A step survives the cap when it is skipped, or when fewer pending steps than the cap precede it. */
  ghost predicate SurvivesCap(steps: seq<StepSpec>, cap: int, i: nat) {
    i < |steps| && (steps[i].status == Skipped || |PendingPositions(steps, i)| < cap)
  }

  /** A leader step survives exactly when the cap keeps it, and the survivors stay in order. */
  lemma {:induction false} KeptPositionsMeaning(steps: seq<StepSpec>, cap: int, n: nat)
    requires n <= |steps|
    ensures forall i: nat :: i in KeptPositions(steps, cap, n) <==> i < n && SurvivesCap(steps, cap, i)
    ensures forall j, k :: 0 <= j < k < |KeptPositions(steps, cap, n)| ==>
              KeptPositions(steps, cap, n)[j] < KeptPositions(steps, cap, n)[k]
  {
    if n > 0 {
      KeptPositionsMeaning(steps, cap, n - 1);
      PendingBeforeCounts(steps, n - 1);
    }
  }

  function PendingCount(steps: seq<StepSpec>): nat { PendingBefore(steps, |steps|) }

  lemma PendingCountGrows(steps: seq<StepSpec>, s: StepSpec)
    ensures PendingCount(steps + [s]) == PendingCount(steps) + (if s.status == Pending then 1 else 0)
  {
    PendingBeforePrefix(steps, [s], |steps|);
  }

  lemma {:induction false} PendingBeforePrefix(a: seq<StepSpec>, b: seq<StepSpec>, i: nat)
    requires i <= |a|
    ensures PendingBefore(a + b, i) == PendingBefore(a, i)
  {
    if i > 0 { PendingBeforePrefix(a, b, i - 1); }
  }

  /** The cap leaves exactly the smaller of the cap and the number of pending leaders. */
  lemma {:induction false} CapKeepsFirstPending(steps: seq<StepSpec>, cap: int, n: nat)
    requires n <= |steps| && cap >= 0
    requires forall s :: s in steps ==> s.status == Pending || s.status == Skipped
    ensures PendingCount(KeptSteps(steps, cap, n)) ==
            if PendingBefore(steps, n) < cap then PendingBefore(steps, n) else cap
  {
    if n > 0 {
      CapKeepsFirstPending(steps, cap, n - 1);
      var kept := KeptSteps(steps, cap, n - 1);
      assert steps[n - 1] in steps;
      if Kept(steps, cap, n - 1) {
        assert KeptSteps(steps, cap, n) == kept + [steps[n - 1]];
        PendingCountGrows(kept, steps[n - 1]);
      } else {
        assert KeptSteps(steps, cap, n) == kept;
      }
    }
  }

  /**
   * Every chain numbers its steps by position and, when the branch has an admin step, ends with it
   * and has no other; the leader steps before it are the distinct leaders, in walk order, less those
   * the cap drops: a skipped one never, any other once as many pending ones as the cap precede it.
   */
  lemma ChainShape(requestedBy: string, policy: ApprovalPolicy, gateway: ChainGateway) returns (from: seq<nat>)
    ensures var chain := Chain(requestedBy, policy, gateway);
            var leaders := LeaderSteps(Visits(gateway.nodes), requestedBy, policy, gateway);
            && |chain| == |from| + (if && policy.requireBranchAdminFinal
                                       && gateway.branch.Some? && gateway.branch.value != ""
                                       && gateway.adminMember.Some? && gateway.adminMember.value != "" then 1 else 0)
            && (forall i :: 0 <= i < |chain| ==> chain[i].idx == i)
            && (forall i :: 0 <= i < |chain| ==> (chain[i].level == BranchAdminLevel <==> i == |from|))
            && (|from| < |chain| ==>
                && chain[|from|].approverMember == gateway.adminMember
                && chain[|from|].approverUser == gateway.adminUser
                && chain[|from|].approverGroup == None && chain[|from|].status == Pending)
            && (forall k :: 0 <= k < |from| ==> from[k] < |leaders| && chain[k] == leaders[from[k]].(idx := k))
            && (forall j, k :: 0 <= j < k < |from| ==> from[j] < from[k])
            && (forall i :: 0 <= i < |leaders| ==>
                  (i in from <==>
                   || policy.maxApprovalLevels == None || policy.maxApprovalLevels.value < 0
                   || SurvivesCap(leaders, policy.maxApprovalLevels.value, i)))
  {
    var leaders := LeaderSteps(Visits(gateway.nodes), requestedBy, policy, gateway);
    LeaderStepsAreUndecided(Visits(gateway.nodes), requestedBy, policy, gateway);
    if Capped(policy) {
      from := KeptPositions(leaders, policy.maxApprovalLevels.value, |leaders|);
      KeptPositionsMeaning(leaders, policy.maxApprovalLevels.value, |leaders|);
    } else {
      from := seq(|leaders|, i requires 0 <= i < |leaders| => i);
      forall i | 0 <= i < |leaders| ensures i in from { assert from[i] == i; }
    }
  }

  ghost predicate SomePending(steps: seq<StepSpec>) {
    exists i :: 0 <= i < |steps| && steps[i].status == Pending
  }

  lemma PendingWithinCap(steps: seq<StepSpec>, cap: int, i: nat)
    requires i < |steps| && PendingBefore(steps, i) < cap
    ensures SurvivesCap(steps, cap, i)
  {
    PendingBeforeCounts(steps, i);
  }

  lemma CapZeroDropsPending(steps: seq<StepSpec>)
    requires forall s :: s in steps ==> s.status == Pending || s.status == Skipped
    ensures !SomePending(KeptSteps(steps, 0, |steps|))
  {
    var from := KeptPositions(steps, 0, |steps|);
    KeptPositionsMeaning(steps, 0, |steps|);
    assert forall k :: 0 <= k < |from| ==> from[k] in from && steps[from[k]] in steps;
  }

  lemma CapKeepsSomePending(steps: seq<StepSpec>, cap: int)
    requires cap > 0
    ensures SomePending(KeptSteps(steps, cap, |steps|)) <==> SomePending(steps)
  {
    var kept := KeptSteps(steps, cap, |steps|);
    var from := KeptPositions(steps, cap, |steps|);
    KeptPositionsMeaning(steps, cap, |steps|);
    if SomePending(kept) {
      var k :| 0 <= k < |kept| && kept[k].status == Pending;
      assert steps[from[k]].status == Pending;
    }
    if SomePending(steps) {
      var i :| 0 <= i < |steps| && steps[i].status == Pending;
      var f := FirstPending(steps, i);
      PendingWithinCap(steps, cap, f);
      var k :| 0 <= k < |from| && from[k] == f;
      assert kept[k].status == Pending;
    }
  }

  lemma SomeLeaderPending(visits: seq<Visit>, requestedBy: string, policy: ApprovalPolicy, gateway: ChainGateway)
    ensures SomePending(LeaderSteps(visits, requestedBy, policy, gateway)) <==>
            exists v :: v in visits && v.leader != "" && (v.leader != requestedBy || policy.allowSelfApproval)
  {
    var steps, first := LeaderSteps(visits, requestedBy, policy, gateway), FirstVisits(visits);
    FirstVisitsMeaning(visits);
    if SomePending(steps) {
      var k :| 0 <= k < |steps| && steps[k].status == Pending;
      assert first[k] in first && visits[first[k]] in visits;
    }
    if v :| v in visits && v.leader != "" && (v.leader != requestedBy || policy.allowSelfApproval) {
      var i: nat :| i < |visits| && visits[i] == v;
      var f := EarliestVisit(visits, i);
      var k :| 0 <= k < |first| && first[k] == f;
      assert steps[k].status == Pending;
    }
  }

  lemma PendingInConcat(a: seq<StepSpec>, b: seq<StepSpec>)
    ensures SomePending(a + b) <==> SomePending(a) || SomePending(b)
    ensures SomePending(Reindexed(a)) <==> SomePending(a)
  {
    if i :| 0 <= i < |a| && a[i].status == Pending {
      assert (a + b)[i].status == Pending && Reindexed(a)[i].status == Pending;
    }
    if i :| 0 <= i < |b| && b[i].status == Pending { assert (a + b)[|a| + i].status == Pending; }
  }

  /** Resolution raises for a missing argument, and otherwise exactly when nobody is left to decide. */
  lemma RaisesIffNoApprover(group: string, requestedBy: string, policy: ApprovalPolicy, gateway: ChainGateway)
    ensures ResolveChain(group, requestedBy, policy, gateway).Failure? <==>
            || group == "" || requestedBy == ""
            || (&& !(&& policy.requireBranchAdminFinal && gateway.branch.Some? && gateway.branch.value != ""
                     && gateway.adminMember.Some? && gateway.adminMember.value != "")
                && (|| policy.maxApprovalLevels == Some(0)
                    || (forall v :: v in Visits(gateway.nodes) && v.leader != "" ==>
                          v.leader == requestedBy && !policy.allowSelfApproval)))
  {
    var visits := Visits(gateway.nodes);
    var leaders := LeaderSteps(visits, requestedBy, policy, gateway);
    var admin := AdminSteps(|leaders|, policy, gateway);
    LeaderStepsAreUndecided(visits, requestedBy, policy, gateway);
    SomeLeaderPending(visits, requestedBy, policy, gateway);
    assert SomePending(admin) <==> HasAdminStep(policy, gateway) by {
      if HasAdminStep(policy, gateway) { assert admin[0].status == Pending; }
    }
    if Capped(policy) {
      var cap := policy.maxApprovalLevels.value;
      var kept := KeptSteps(leaders, cap, |leaders|);
      if cap == 0 { CapZeroDropsPending(leaders); } else { CapKeepsSomePending(leaders, cap); }
      PendingInConcat(kept, admin);
      PendingInConcat(kept + admin, []);
    } else {
      PendingInConcat(leaders, admin);
    }
    assert group != "" && requestedBy != "" ==>
             (SomePending(Chain(requestedBy, policy, gateway)) <==>
              ResolveChain(group, requestedBy, policy, gateway).Success?);
  }

  lemma {:induction false} FirstPending(steps: seq<StepSpec>, k: nat) returns (f: nat)
    requires k < |steps| && steps[k].status == Pending
    ensures f < |steps| && steps[f].status == Pending && PendingBefore(steps, f) == 0
  {
    if PendingBefore(steps, k) == 0 {
      f := k;
    } else {
      var j := EarlierPending(steps, k);
      f := FirstPending(steps, j);
    }
  }

  lemma {:induction false} EarlierPending(steps: seq<StepSpec>, k: nat) returns (j: nat)
    requires k <= |steps| && PendingBefore(steps, k) > 0
    ensures j < k && steps[j].status == Pending
  {
    if steps[k - 1].status == Pending { j := k - 1; } else { j := EarlierPending(steps, k - 1); }
  }

  // ---- step advancement ------------------------------------------------------------

  /** The first pending step at or after `from`. */
  function CurrentStepIndex(steps: seq<StepSpec>, from: nat): (r: Option<nat>)
    ensures r.Some? ==> from <= r.value < |steps| && steps[r.value].status == Pending
    ensures forall j :: from <= j < (if r.Some? then r.value else |steps|) ==> steps[j].status != Pending
    decreases |steps| - from
  {
    if from >= |steps| then None
    else if steps[from].status == Pending then Some(from)
    else CurrentStepIndex(steps, from + 1)
  }

  function FirstPendingStep(steps: seq<StepSpec>): Option<nat> {
    CurrentStepIndex(steps, 0)
  }

  /** A chain is complete once no step is left to decide, skipped steps included. */
  predicate IsChainComplete(steps: seq<StepSpec>): (complete: bool)
    ensures complete <==> forall j :: 0 <= j < |steps| ==> steps[j].status != Pending
  {
    FirstPendingStep(steps).None?
  }

  /** An approval's steps and its stored `current_step`. */
  datatype Progress = Progress(steps: seq<StepSpec>, current: nat)

  /** One approval of the current step, as the controller applies it; `None` once nothing is pending. */
  function ApproveCurrent(p: Progress): Option<(nat, Progress)> {
    match CurrentStepIndex(p.steps, p.current)
    case None => None
    case Some(i) =>
      var steps := p.steps[i := p.steps[i].(status := Approved)];
      match CurrentStepIndex(steps, p.current)
      case None => Some((i, Progress(steps, p.current)))
      case Some(next) => Some((i, Progress(steps, next)))
  }

  function PendingFrom(steps: seq<StepSpec>, from: nat): seq<nat>
    decreases |steps| - from
  {
    if from >= |steps| then []
    else (if steps[from].status == Pending then [from] else []) + PendingFrom(steps, from + 1)
  }

  /** Approving until nobody is left: the decided positions and the final steps. */
  function ApproveAll(p: Progress): (seq<nat>, seq<StepSpec>)
    decreases |PendingFrom(p.steps, p.current)|
  {
    match ApproveCurrent(p)
    case None => ([], p.steps)
    case Some(done) =>
      ApprovalShrinks(p);
      var rest := ApproveAll(done.1);
      ([done.0] + rest.0, rest.1)
  }

  lemma {:induction false} PendingFromSkips(steps: seq<StepSpec>, from: nat, i: nat)
    requires from <= i <= |steps| && forall j :: from <= j < i ==> steps[j].status != Pending
    ensures PendingFrom(steps, from) == PendingFrom(steps, i)
    decreases i - from
  {
    if from < i { PendingFromSkips(steps, from + 1, i); }
  }

  lemma {:induction false} PendingFromAgrees(a: seq<StepSpec>, b: seq<StepSpec>, from: nat)
    requires |a| == |b| && forall j :: from <= j < |a| ==> a[j] == b[j]
    ensures PendingFrom(a, from) == PendingFrom(b, from)
    decreases |a| - from
  {
    if from < |a| { PendingFromAgrees(a, b, from + 1); }
  }

  /** One approval decides the first pending step and leaves the rest of the queue as it was. */
  lemma ApprovalShrinks(p: Progress)
    requires ApproveCurrent(p).Some?
    ensures var (i, p') := ApproveCurrent(p).value;
            && |p'.steps| == |p.steps| && p.current <= i < |p.steps| && p.steps[i].status == Pending
            && p'.steps == p.steps[i := p.steps[i].(status := Approved)]
            && (forall j :: p.current <= j < p'.current ==> j < |p'.steps| && p'.steps[j].status != Pending)
            && p'.current >= p.current
            && PendingFrom(p.steps, p.current) == [i] + PendingFrom(p'.steps, p'.current)
  {
    var (i, p') := ApproveCurrent(p).value;
    PendingFromSkips(p.steps, p.current, i);
    PendingFromAgrees(p.steps, p'.steps, i + 1);
    PendingFromSkips(p'.steps, p.current, i + 1);
    PendingFromSkips(p'.steps, p.current, p'.current);
  }

  /**
   * Approving step after step decides every pending step from the stored one on, once and in order,
   * and leaves no step pending.
   */
  lemma {:induction false} ApproveAllVisitsEachPendingOnce(p: Progress)
    requires forall j :: 0 <= j < p.current && j < |p.steps| ==> p.steps[j].status != Pending
    ensures ApproveAll(p).0 == PendingFrom(p.steps, p.current)
    ensures IsChainComplete(ApproveAll(p).1)
    ensures |ApproveAll(p).1| == |p.steps|
    ensures forall i :: 0 <= i < |p.steps| ==>
              ApproveAll(p).1[i] == if p.steps[i].status == Pending then p.steps[i].(status := Approved) else p.steps[i]
    decreases |PendingFrom(p.steps, p.current)|
  {
    match ApproveCurrent(p) {
      case None =>
        if p.current < |p.steps| { PendingFromSkips(p.steps, p.current, |p.steps|); }
      case Some(done) =>
        ApprovalShrinks(p);
        ApproveAllVisitsEachPendingOnce(done.1);
    }
  }

  // ---- the request's own state machine ---------------------------------------------

  datatype ApprovalStatus = Draft | PendingApproval | ApprovedRequest | RejectedRequest | Cancelled | Withdrawn

  function Transitions(from: ApprovalStatus): set<ApprovalStatus> {
    match from
    case Draft => {PendingApproval, ApprovedRequest, Withdrawn, Cancelled}
    case PendingApproval => {ApprovedRequest, RejectedRequest, Cancelled}
    case RejectedRequest => {Draft}
    case Withdrawn => {Draft}
    case ApprovedRequest => {}
    case Cancelled => {}
  }

  /** Submitting, deciding, withdrawing and redrafting, with the fast path from draft, are all the moves there are. */
  lemma MovesOfARequest(from: ApprovalStatus, to: ApprovalStatus)
    ensures IsValidApprovalTransition(Some(from), to) <==>
            || from == to
            || (to == PendingApproval && from == Draft)
            || (to == ApprovedRequest && from in {Draft, PendingApproval})
            || (to == RejectedRequest && from == PendingApproval)
            || (to == Withdrawn && from == Draft)
            || (to == Cancelled && from in {Draft, PendingApproval})
            || (to == Draft && from in {RejectedRequest, Withdrawn})
  {
  }

  predicate IsTerminalApprovalStatus(s: ApprovalStatus) {
    s in {ApprovedRequest, RejectedRequest, Cancelled, Withdrawn}
  }

  predicate IsValidApprovalTransition(from: Option<ApprovalStatus>, to: ApprovalStatus) {
    match from
    case None => to == Draft
    case Some(f) => f == to || to in Transitions(f)
  }

  predicate LegalAt(history: seq<ApprovalStatus>, i: nat)
    requires i < |history|
  {
    IsValidApprovalTransition(if i == 0 then None else Some(history[i - 1]), history[i])
  }

  predicate ValidHistory(history: seq<ApprovalStatus>) {
    forall i :: 0 <= i < |history| ==> LegalAt(history, i)
  }

  /** Once approved or cancelled a request never changes again; a rejected or withdrawn one can only be redrafted. */
  lemma {:induction false} DecisionsAreFinal(history: seq<ApprovalStatus>, i: nat, j: nat)
    requires ValidHistory(history) && i <= j < |history|
    ensures history[0] == Draft
    ensures history[i] in {ApprovedRequest, Cancelled} ==> history[j] == history[i]
    ensures history[i] in {RejectedRequest, Withdrawn} && history[j] != history[i] ==> Draft in history[i..j + 1]
    decreases j - i
  {
    assert LegalAt(history, 0);
    if i < j {
      DecisionsAreFinal(history, i, j - 1);
      assert LegalAt(history, j);
      assert history[i..j + 1] == history[i..j] + [history[j]];
      if history[j - 1] == history[i] { assert history[j] in history[i..j + 1]; }
    }
  }

  /** The "terminal" statuses that still allow a move are exactly the two that can be redrafted. */
  lemma TerminalStatusesThatMove(s: ApprovalStatus)
    ensures IsTerminalApprovalStatus(s) ==>
              ((exists to :: to != s && IsValidApprovalTransition(Some(s), to)) <==> s in {RejectedRequest, Withdrawn})
  {
    assert s in {RejectedRequest, Withdrawn} ==> IsValidApprovalTransition(Some(s), Draft);
  }
}
