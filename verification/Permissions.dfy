/**
 * Row-level scoping of `permissions.py`: the query hook (as a fragment and its evaluation), the row
 * guard, and the approval-authority check. A `Directory` is what the gateway's reads return.
 */
module Permissions {
  import opened Wrappers
  import opened Trees
  import opened Adjacency
  import opened NestedSet

  datatype Role = OrgAdmin | BranchAdmin | GroupLeader | MemberRole | Visitor | Auditor | OtherRole(name: string)

  const BYPASS_ROLES: set<Role> := {OrgAdmin, BranchAdmin, Auditor}
  const GLOBAL_BRANCH_ROLES: set<Role> := {OrgAdmin, Auditor}

  const GROUP_DOCTYPE := "Flock Group"
  const SCOPED_DOCTYPES: set<string> := {
    "Flock Group", "Flock Group Member", "Flock Gathering", "Flock Announcement", "Flock Event Approval",
    "Flock Engagement Session", "Flock Attendance Record", "Flock Event Registration", "Flock Event Invitation"}
  const MEMBER_ANCHORED_DOCTYPES: map<string, string> := map[
    "Flock Group Member" := "member",
    "Flock Event Registration" := "registrant",
    "Flock Attendance Record" := "member",
    "Flock Event Invitation" := "invitee"]

  datatype RosterRole = Leads | CoLeads | Attends

  /** One `Flock Group Member` row. */
  datatype RosterEdge = RosterEdge(group: string, member: string, role: RosterRole)

  datatype Directory = Directory(
    roles: map<string, set<Role>>,
    memberOf: map<string, string>,
    groups: seq<TreeRow>,
    roster: seq<RosterEdge>,
    branchPermissions: map<string, seq<string>>)

  /** Primary keys are never empty, and group names are a key. */
  ghost predicate WellKeyed(dir: Directory) {
    && UniqueNames(dir.groups)
    && (forall r :: r in dir.groups ==> r.name != "")
    && (forall e :: e in dir.roster ==> e.group != "" && e.member != "")
    && (forall u :: u in dir.memberOf ==> dir.memberOf[u] != "")
  }

  function UserRoles(dir: Directory, user: string): set<Role> {
    if user in dir.roles then dir.roles[user] else {}
  }

  function MemberFor(dir: Directory, user: string): Option<string> {
    if user in dir.memberOf then Some(dir.memberOf[user]) else None
  }

  function AllowedBranches(dir: Directory, user: string): seq<string> {
    if user in dir.branchPermissions then dir.branchPermissions[user] else []
  }

  /** The accountable leader of a group, or a leader or co-leader on its roster. */
  predicate LeadsRow(dir: Directory, member: string, row: TreeRow) {
    || row.leader == Some(member)
    || exists e ::
         e in dir.roster && e.group == row.name && e.member == member && (e.role == Leads || e.role == CoLeads)
  }

  /** The groups whose roster has the member as leader or co-leader. */
  function RosterGroups(member: string, roster: seq<RosterEdge>): (groups: seq<string>)
    ensures forall g :: g in groups <==>
              exists e :: e in roster && e.member == member && e.group == g && (e.role == Leads || e.role == CoLeads)
  {
    if roster == [] then []
    else
      assert roster == [roster[0]] + roster[1..];
      (if roster[0].member == member && !roster[0].role.Attends? then [roster[0].group] else [])
      + RosterGroups(member, roster[1..])
  }

  function LedRows(dir: Directory, member: string, rows: seq<TreeRow>): (led: seq<TreeRow>)
    ensures forall r :: r in led <==> r in rows && LeadsRow(dir, member, r)
  {
    if rows == [] then []
    else
      assert rows == [rows[0]] + rows[1..];
      (if rows[0].leader == Some(member) || rows[0].name in RosterGroups(member, dir.roster) then [rows[0]] else [])
      + LedRows(dir, member, rows[1..])
  }

  function JoinedGroups(member: string, roster: seq<RosterEdge>): (joined: seq<string>)
    ensures forall g :: g in joined <==> exists e :: e in roster && e.member == member && e.group == g
  {
    if roster == [] then []
    else
      assert roster == [roster[0]] + roster[1..];
      (if roster[0].member == member then [roster[0].group] else []) + JoinedGroups(member, roster[1..])
  }

  function GroupBounds(dir: Directory, name: string): Option<TreeRow> {
    if name in RowMapOf(dir.groups) then Some(RowMapOf(dir.groups)[name]) else None
  }

  // ---- scope -----------------------------------------------------------------------

  datatype LeaderScope = LeaderScope(member: Option<string>, led: seq<TreeRow>, joined: seq<string>)

  predicate IsBypass(roles: set<Role>) {
    roles * BYPASS_ROLES != {}
  }

  function ResolveLeaderScope(dir: Directory, user: string): LeaderScope {
    if IsBypass(UserRoles(dir, user)) then LeaderScope(MemberFor(dir, user), [], [])
    else
      match MemberFor(dir, user)
      case None => LeaderScope(None, [], [])
      case Some(m) => LeaderScope(Some(m), LedRows(dir, m, dir.groups), JoinedGroups(m, dir.roster))
  }

  // ---- the query fragment ----------------------------------------------------------

  datatype Column = NameColumn | GroupColumn | MemberColumn(name: string)
  datatype Range = Range(lft: int, rgt: int)

  /** One branch of the `OR`. `InSubtrees` is the sub-select over the group table's own ranges. */
  datatype Clause =
    | IsNull(column: Column)
    | InSubtrees(column: Column, ranges: seq<Range>)
    | InList(column: Column, values: seq<string>)
    | EqualTo(column: Column, value: string)

  datatype Fragment = NoRestriction | AnyOf(clauses: seq<Clause>)

  function Ranges(led: seq<TreeRow>): seq<Range> {
    seq(|led|, i requires 0 <= i < |led| => Range(led[i].lft, led[i].rgt))
  }

  function BuildGroupScopeFragment(doctype: string, scope: LeaderScope): Fragment {
    if !Truthy(scope.member) && scope.led == [] && scope.joined == [] then NoRestriction
    else if doctype == GROUP_DOCTYPE then
      AnyOf([InSubtrees(NameColumn, Ranges(scope.led))]
            + (if scope.joined != [] then [InList(NameColumn, scope.joined)] else []))
    else
      AnyOf([IsNull(GroupColumn), InSubtrees(GroupColumn, Ranges(scope.led))]
            + (if Truthy(scope.member) && doctype in MEMBER_ANCHORED_DOCTYPES
               then [EqualTo(MemberColumn(MEMBER_ANCHORED_DOCTYPES[doctype]), scope.member.value)] else [])
            + (if scope.joined != [] then [InList(GroupColumn, scope.joined)] else []))
  }

  /** `get_group_scoped_conditions`: the registered hook. */
  function GroupScopedConditions(dir: Directory, user: string, doctype: string): Fragment {
    if doctype !in SCOPED_DOCTYPES then NoRestriction
    else if IsBypass(UserRoles(dir, user)) then NoRestriction
    else BuildGroupScopeFragment(doctype, ResolveLeaderScope(dir, user))
  }

  /** A row of some scoped table; `cells` holds its link columns, `None` standing for SQL NULL. */
  datatype DocRow = DocRow(doctype: string, name: string, cells: map<string, Option<string>>)

  /** The links of each group-scoped table to a group and to the member a row is about, as its schema has them. */
  const TABLE_LINKS: map<string, set<string>> := map[
    "Flock Group" := {},
    "Flock Group Member" := {"group", "member"},
    "Flock Gathering" := {"group"},
    "Flock Announcement" := {"group"},
    "Flock Event Approval" := {"group"},
    "Flock Engagement Session" := {"group"},
    "Flock Attendance Record" := {"group", "member"},
    "Flock Event Registration" := {"group", "registrant"},
    "Flock Event Invitation" := {"group", "invitee"}]

  predicate HasSchema(row: DocRow) {
    row.doctype in TABLE_LINKS && row.cells.Keys == TABLE_LINKS[row.doctype]
  }

  predicate HasColumn(row: DocRow, c: Column) {
    match c
    case NameColumn => true
    case GroupColumn => "group" in row.cells
    case MemberColumn(name) => name in row.cells
  }

  function Cell(row: DocRow, c: Column): Option<string>
    requires HasColumn(row, c)
  {
    match c
    case NameColumn => Some(row.name)
    case GroupColumn => row.cells["group"]
    case MemberColumn(name) => row.cells[name]
  }

  predicate InSomeRange(r: TreeRow, ranges: seq<Range>) {
    exists i :: 0 <= i < |ranges| && r.lft >= ranges[i].lft && r.rgt <= ranges[i].rgt
  }

  /** The named group exists and its interval lies in one of the ranges. */
  predicate InSubtree(groups: seq<TreeRow>, name: string, ranges: seq<Range>) {
    exists r :: r in groups && r.name == name && InSomeRange(r, ranges)
  }

  /** SQL truth of one clause: a comparison with NULL is not true. */
  predicate Holds(c: Clause, row: DocRow, groups: seq<TreeRow>)
    requires HasColumn(row, c.column)
  {
    match c
    case IsNull(column) => Cell(row, column).None?
    case InSubtrees(column, ranges) =>
      Cell(row, column).Some? && InSubtree(groups, Cell(row, column).value, ranges)
    case InList(column, values) => Cell(row, column).Some? && Cell(row, column).value in values
    case EqualTo(column, value) => Cell(row, column) == Some(value)
  }

  /** The fragment names only columns the table has: otherwise the query is not valid SQL. */
  predicate WellFormed(f: Fragment, row: DocRow) {
    f.AnyOf? ==> forall c :: c in f.clauses ==> HasColumn(row, c.column)
  }

  predicate AnyHolds(clauses: seq<Clause>, row: DocRow, groups: seq<TreeRow>)
    requires forall c :: c in clauses ==> HasColumn(row, c.column)
  {
    exists c :: c in clauses && Holds(c, row, groups)
  }

  predicate Admits(f: Fragment, row: DocRow, groups: seq<TreeRow>)
    requires WellFormed(f, row)
  {
    f.AnyOf? ==> AnyHolds(f.clauses, row, groups)
  }

  lemma AnyHoldsConcat(a: seq<Clause>, b: seq<Clause>, row: DocRow, groups: seq<TreeRow>)
    requires forall c :: c in a + b ==> HasColumn(row, c.column)
    ensures (forall c :: c in a ==> HasColumn(row, c.column)) && (forall c :: c in b ==> HasColumn(row, c.column))
    ensures AnyHolds(a + b, row, groups) <==> AnyHolds(a, row, groups) || AnyHolds(b, row, groups)
  {
    assert forall c :: c in a ==> c in a + b;
    assert forall c :: c in b ==> c in a + b;
  }

  lemma AnyHoldsOne(c: Clause, row: DocRow, groups: seq<TreeRow>)
    requires HasColumn(row, c.column)
    ensures AnyHolds([c], row, groups) <==> Holds(c, row, groups)
  {
    assert c in [c];
  }

  /** The registered tables are those with links, and the column of a member-anchored table is one of its links. */
  lemma RegisteredTablesHaveLinks(doctype: string)
    ensures doctype in SCOPED_DOCTYPES <==> doctype in TABLE_LINKS
    ensures doctype in TABLE_LINKS && doctype != GROUP_DOCTYPE ==> "group" in TABLE_LINKS[doctype]
    ensures doctype in TABLE_LINKS && doctype in MEMBER_ANCHORED_DOCTYPES ==>
              doctype != GROUP_DOCTYPE && MEMBER_ANCHORED_DOCTYPES[doctype] in TABLE_LINKS[doctype]
  {
  }

  lemma FragmentColumns(doctype: string, scope: LeaderScope, row: DocRow)
    requires doctype != GROUP_DOCTYPE ==> "group" in row.cells
    requires doctype != GROUP_DOCTYPE && doctype in MEMBER_ANCHORED_DOCTYPES ==>
               MEMBER_ANCHORED_DOCTYPES[doctype] in row.cells
    ensures WellFormed(BuildGroupScopeFragment(doctype, scope), row)
  {
  }

  /** For every scoped table and user the hook's fragment is valid against that table; no other table gets one. */
  lemma FragmentIsValidSql(dir: Directory, user: string, row: DocRow)
    ensures HasSchema(row) ==> WellFormed(GroupScopedConditions(dir, user, row.doctype), row)
    ensures row.doctype !in TABLE_LINKS ==> GroupScopedConditions(dir, user, row.doctype) == NoRestriction
  {
    RegisteredTablesHaveLinks(row.doctype);
    if HasSchema(row) { FragmentColumns(row.doctype, ResolveLeaderScope(dir, user), row); }
  }

  // ---- the row guard ---------------------------------------------------------------

  predicate AssertGroupScope(dir: Directory, docGroup: Option<string>, docMember: Option<string>, user: string) {
    if IsBypass(UserRoles(dir, user)) then true
    else
      var scope := ResolveLeaderScope(dir, user);
      if docGroup.None? && docMember.None? then true
      else if Truthy(scope.member) && Truthy(docMember) && docMember == scope.member then true
      else if Truthy(docGroup) then
        var bounds := GroupBounds(dir, docGroup.value);
        if bounds.Some? && exists led :: led in scope.led && Contains(led, bounds.value) then true
        else docGroup.value in scope.joined
      else false
  }

  /** The group a row belongs to, which for a group is itself. */
  function DocGroup(row: DocRow): Option<string> {
    if "group" in row.cells then row.cells["group"] else Some(row.name)
  }

  /** The member a row is about. */
  function DocMember(row: DocRow): Option<string> {
    if "member" in row.cells then row.cells["member"]
    else if "registrant" in row.cells then row.cells["registrant"]
    else if "invitee" in row.cells then row.cells["invitee"]
    else None
  }

  /** Where hook and guard see the same rows, in terms a caller can read off user and row. */
  predicate Agreeable(dir: Directory, user: string, row: DocRow) {
    || (user in dir.roles && dir.roles[user] * {OrgAdmin, BranchAdmin, Auditor} != {})
    || (if user in dir.memberOf
        then DocGroup(row).None? ==> DocMember(row).None? || DocMember(row) == Some(dir.memberOf[user])
        else DocGroup(row).None? && DocMember(row).None?)
  }

  lemma SubtreeClauseIsContainment(dir: Directory, name: string, led: seq<TreeRow>)
    requires UniqueNames(dir.groups)
    ensures InSubtree(dir.groups, name, Ranges(led)) <==>
            GroupBounds(dir, name).Some? && exists l :: l in led && Contains(l, GroupBounds(dir, name).value)
  {
    if r :| r in dir.groups && r.name == name && InSomeRange(r, Ranges(led)) {
      RowsInMap(dir.groups, r);
      var i :| 0 <= i < |Ranges(led)| && r.lft >= Ranges(led)[i].lft && r.rgt <= Ranges(led)[i].rgt;
      assert led[i] in led && Contains(led[i], r);
    }
    if GroupBounds(dir, name).Some? {
      var r := GroupBounds(dir, name).value;
      NamedRow(dir.groups, name);
      if l :| l in led && Contains(l, r) {
        var i :| 0 <= i < |led| && led[i] == l;
        assert r.lft >= Ranges(led)[i].lft && r.rgt <= Ranges(led)[i].rgt;
      }
    }
  }

  lemma AnyHoldsIf(has: bool, c: Clause, row: DocRow, groups: seq<TreeRow>)
    requires has ==> HasColumn(row, c.column)
    ensures AnyHolds(if has then [c] else [], row, groups) <==> has && Holds(c, row, groups)
  {
    if has { AnyHoldsOne(c, row, groups); }
  }

  /** The fragment's clauses over the group itself or the row's group column. */
  function GroupClauses(key: Column, scope: LeaderScope): seq<Clause> {
    [InSubtrees(key, Ranges(scope.led))] + (if scope.joined != [] then [InList(key, scope.joined)] else [])
  }

  lemma GroupClausesMeaning(key: Column, scope: LeaderScope, row: DocRow, groups: seq<TreeRow>)
    requires HasColumn(row, key)
    ensures forall c :: c in GroupClauses(key, scope) ==> HasColumn(row, c.column)
    ensures AnyHolds(GroupClauses(key, scope), row, groups) <==>
            Holds(InSubtrees(key, Ranges(scope.led)), row, groups) || Holds(InList(key, scope.joined), row, groups)
  {
    var subtree, listed := InSubtrees(key, Ranges(scope.led)), InList(key, scope.joined);
    AnyHoldsConcat([subtree], if scope.joined != [] then [listed] else [], row, groups);
    AnyHoldsOne(subtree, row, groups);
    AnyHoldsIf(scope.joined != [], listed, row, groups);
  }

  function OwnClauses(doctype: string, member: string): seq<Clause> {
    if doctype in MEMBER_ANCHORED_DOCTYPES then [EqualTo(MemberColumn(MEMBER_ANCHORED_DOCTYPES[doctype]), member)]
    else []
  }

  lemma OwnClausesMeaning(row: DocRow, member: string, groups: seq<TreeRow>)
    requires HasSchema(row)
    ensures forall c :: c in OwnClauses(row.doctype, member) ==> HasColumn(row, c.column)
    ensures AnyHolds(OwnClauses(row.doctype, member), row, groups) <==> DocMember(row) == Some(member)
  {
    if row.doctype in MEMBER_ANCHORED_DOCTYPES {
      AnyHoldsOne(EqualTo(MemberColumn(MEMBER_ANCHORED_DOCTYPES[row.doctype]), member), row, groups);
    }
  }

  /** On every table but the groups' own: rows without a group, own rows, and what the group clauses select. */
  lemma RowFragmentMeaning(scope: LeaderScope, row: DocRow, groups: seq<TreeRow>)
    requires HasSchema(row) && row.doctype != GROUP_DOCTYPE && Truthy(scope.member)
    ensures WellFormed(BuildGroupScopeFragment(row.doctype, scope), row)
    ensures Admits(BuildGroupScopeFragment(row.doctype, scope), row, groups) <==>
            || row.cells["group"].None? || DocMember(row) == scope.member
            || AnyHolds(GroupClauses(GroupColumn, scope), row, groups)
  {
    var orphan, own := IsNull(GroupColumn), OwnClauses(row.doctype, scope.member.value);
    var subtree := InSubtrees(GroupColumn, Ranges(scope.led));
    var listed := if scope.joined != [] then [InList(GroupColumn, scope.joined)] else [];
    GroupClausesMeaning(GroupColumn, scope, row, groups);
    OwnClausesMeaning(row, scope.member.value, groups);
    assert BuildGroupScopeFragment(row.doctype, scope).clauses == ([orphan, subtree] + own) + listed;
    AnyHoldsConcat([orphan, subtree] + own, listed, row, groups);
    AnyHoldsConcat([orphan, subtree], own, row, groups);
    AnyHoldsConcat([orphan], [subtree], row, groups);
    AnyHoldsConcat([subtree], listed, row, groups);
    AnyHoldsOne(orphan, row, groups);
    assert [orphan] + [subtree] == [orphan, subtree];
  }

  lemma GroupRowFragmentMeaning(scope: LeaderScope, row: DocRow, groups: seq<TreeRow>)
    requires HasSchema(row) && row.doctype == GROUP_DOCTYPE && Truthy(scope.member)
    ensures WellFormed(BuildGroupScopeFragment(row.doctype, scope), row)
    ensures Admits(BuildGroupScopeFragment(row.doctype, scope), row, groups) <==>
            AnyHolds(GroupClauses(NameColumn, scope), row, groups)
  {
  }

  /** What each branch of the fragment built for a linked member selects. */
  lemma FragmentMeaning(doctype: string, scope: LeaderScope, row: DocRow, groups: seq<TreeRow>)
    requires HasSchema(row) && row.doctype == doctype && Truthy(scope.member)
    ensures WellFormed(BuildGroupScopeFragment(doctype, scope), row)
    ensures Admits(BuildGroupScopeFragment(doctype, scope), row, groups) <==>
            || DocGroup(row).None?
            || InSubtree(groups, DocGroup(row).value, Ranges(scope.led))
            || DocMember(row) == scope.member
            || DocGroup(row).value in scope.joined
  {
    if doctype == GROUP_DOCTYPE {
      GroupClausesMeaning(NameColumn, scope, row, groups);
      GroupRowFragmentMeaning(scope, row, groups);
    } else {
      GroupClausesMeaning(GroupColumn, scope, row, groups);
      RowFragmentMeaning(scope, row, groups);
    }
  }

  lemma GuardForLinkedUser(dir: Directory, user: string, group: Option<string>, member: Option<string>)
    requires WellKeyed(dir) && user in dir.memberOf
    requires user in dir.roles ==> dir.roles[user] !! {OrgAdmin, BranchAdmin, Auditor}
    ensures var scope := ResolveLeaderScope(dir, user);
            AssertGroupScope(dir, group, member, user) <==>
            || (group.None? && member.None?)
            || member == scope.member
            || (group.Some? && InSubtree(dir.groups, group.value, Ranges(scope.led)))
            || (group.Some? && group.value in scope.joined)
  {
    var scope := ResolveLeaderScope(dir, user);
    if group.Some? {
      SubtreeClauseIsContainment(dir, group.value, scope.led);
      assert group.value in scope.joined ==> group.value != "";
    }
  }

  lemma LinkedUserHasFragment(dir: Directory, user: string, doctype: string)
    requires WellKeyed(dir) && user in dir.memberOf && doctype in TABLE_LINKS
    requires user in dir.roles ==> dir.roles[user] !! {OrgAdmin, BranchAdmin, Auditor}
    ensures Truthy(ResolveLeaderScope(dir, user).member)
    ensures GroupScopedConditions(dir, user, doctype) == BuildGroupScopeFragment(doctype, ResolveLeaderScope(dir, user))
  {
  }

  /** For a linked user without a bypass role the hook is the guard, or a row without a group. */
  lemma HookForLinkedUser(dir: Directory, user: string, row: DocRow)
    requires WellKeyed(dir) && HasSchema(row) && user in dir.memberOf
    requires user in dir.roles ==> dir.roles[user] !! {OrgAdmin, BranchAdmin, Auditor}
    ensures WellFormed(GroupScopedConditions(dir, user, row.doctype), row)
    ensures Admits(GroupScopedConditions(dir, user, row.doctype), row, dir.groups) <==>
            DocGroup(row).None? || AssertGroupScope(dir, DocGroup(row), DocMember(row), user)
  {
    LinkedUserHasFragment(dir, user, row.doctype);
    FragmentMeaning(row.doctype, ResolveLeaderScope(dir, user), row, dir.groups);
    GuardForLinkedUser(dir, user, DocGroup(row), DocMember(row));
  }

  lemma NothingShared(a: set<Role>, b: set<Role>)
    ensures a !! b <==> a * b == {}
  {
    if r :| r in a && r in b { assert r in a * b; }
  }

  /**
   * The list hook and the row guard let a user see the same rows exactly where `Agreeable` holds:
   * always for a bypass role, and for a linked user on every row that has a group.
   */
  lemma HookAgreesWithGuard(dir: Directory, user: string, row: DocRow)
    requires WellKeyed(dir) && HasSchema(row)
    ensures WellFormed(GroupScopedConditions(dir, user, row.doctype), row)
    ensures (Admits(GroupScopedConditions(dir, user, row.doctype), row, dir.groups) <==>
             AssertGroupScope(dir, DocGroup(row), DocMember(row), user)) <==> Agreeable(dir, user, row)
  {
    var bypass := {OrgAdmin, BranchAdmin, Auditor};
    if user in dir.roles { NothingShared(dir.roles[user], bypass); }
    if user in dir.roles && dir.roles[user] * bypass != {} {
      BypassSeesEveryRow(dir, user, row);
    } else if user in dir.memberOf {
      HookForLinkedUser(dir, user, row);
    }
  }

  /** Org admins, branch admins and auditors are listed every row and pass the guard on every row. */
  lemma BypassSeesEveryRow(dir: Directory, user: string, row: DocRow)
    requires user in dir.roles && dir.roles[user] * {OrgAdmin, BranchAdmin, Auditor} != {}
    ensures WellFormed(GroupScopedConditions(dir, user, row.doctype), row)
    ensures Admits(GroupScopedConditions(dir, user, row.doctype), row, dir.groups)
    ensures AssertGroupScope(dir, DocGroup(row), DocMember(row), user)
  {
    assert UserRoles(dir, user) * BYPASS_ROLES != {};
  }

  /** A user without a linked member lists every row of a group that the guard then refuses. */
  lemma HookAndGuardCanDiffer()
    ensures var dir := Directory(map[], map[], [], [], map[]);
            var row := DocRow("Flock Gathering", "G1", map["group" := Some("cell")]);
            && WellKeyed(dir) && HasSchema(row)
            && Admits(GroupScopedConditions(dir, "visitor", row.doctype), row, dir.groups)
            && !AssertGroupScope(dir, DocGroup(row), DocMember(row), "visitor")
  {
    var dir := Directory(map[], map[], [], [], map[]);
    assert MemberFor(dir, "visitor") == None;
  }

  /** Somebody who leads the group or a group above it in the tree. */
  ghost predicate LeadsAtOrAbove(dir: Directory, member: string, group: string) {
    exists l :: && l in dir.groups && LeadsRow(dir, member, l)
                && AtOrAbove(l.name, group, ParentMapOf(dir.groups))
  }

  lemma ContainmentIsLeadership(dir: Directory, member: string, group: string)
    requires WellKeyed(dir) && ValidNestedSet(dir.groups) && GroupBounds(dir, group).Some?
    ensures (exists l :: l in LedRows(dir, member, dir.groups) && Contains(l, GroupBounds(dir, group).value)) <==>
            LeadsAtOrAbove(dir, member, group)
  {
    var row, P := GroupBounds(dir, group).value, ParentMapOf(dir.groups);
    forall l | l in dir.groups ensures Contains(l, row) <==> AtOrAbove(l.name, group, P) {
      RowsInMap(dir.groups, l);
      ContainsIffAncestor(dir.groups, l.name, group);
      AtOrAboveIsAncestor(l.name, group, P);
    }
  }

  /** Nobody leads a group that does not exist. */
  lemma UnknownGroupHasNoLeader(dir: Directory, member: string, group: string)
    requires WellKeyed(dir) && GroupBounds(dir, group).None?
    ensures !LeadsAtOrAbove(dir, member, group)
  {
    KeysAreNames(dir.groups);
    forall l | l in dir.groups ensures !AtOrAbove(l.name, group, ParentMapOf(dir.groups)) {
      RowsInMap(dir.groups, l);
      AtOrAboveRoot(l.name, group, ParentMapOf(dir.groups));
    }
  }

  /** Containment in a led interval, for a group that may not exist, is leadership at or above it. */
  lemma LedRangeIsLeadership(dir: Directory, member: string, group: string)
    requires WellKeyed(dir) && ValidNestedSet(dir.groups)
    ensures InSubtree(dir.groups, group, Ranges(LedRows(dir, member, dir.groups))) <==>
            LeadsAtOrAbove(dir, member, group)
  {
    SubtreeClauseIsContainment(dir, group, LedRows(dir, member, dir.groups));
    if GroupBounds(dir, group).Some? {
      ContainmentIsLeadership(dir, member, group);
    } else {
      UnknownGroupHasNoLeader(dir, member, group);
    }
  }

  /** What makes a row with a group, or about a member, somebody's own to see. */
  ghost predicate LeadsJoinedOrOwns(dir: Directory, member: string, row: DocRow) {
    || DocMember(row) == Some(member)
    || (DocGroup(row).Some? && LeadsAtOrAbove(dir, member, DocGroup(row).value))
    || (DocGroup(row).Some? && exists e :: e in dir.roster && e.member == member && e.group == DocGroup(row).value)
  }

  /**
   * A linked user who is no org admin, branch admin or auditor is listed a row, and passes the guard on it,
   * exactly when they lead its group or one above it, belong to its group, or are the member it is about;
   * the list adds the rows without a group, the guard those with neither group nor member.
   */
  lemma LinkedUserSeesLedJoinedAndOwn(dir: Directory, user: string, row: DocRow)
    requires WellKeyed(dir) && ValidNestedSet(dir.groups) && HasSchema(row) && user in dir.memberOf
    requires user in dir.roles ==> dir.roles[user] !! {OrgAdmin, BranchAdmin, Auditor}
    ensures WellFormed(GroupScopedConditions(dir, user, row.doctype), row)
    ensures Admits(GroupScopedConditions(dir, user, row.doctype), row, dir.groups) <==>
            DocGroup(row).None? || LeadsJoinedOrOwns(dir, dir.memberOf[user], row)
    ensures AssertGroupScope(dir, DocGroup(row), DocMember(row), user) <==>
            (DocGroup(row).None? && DocMember(row).None?) || LeadsJoinedOrOwns(dir, dir.memberOf[user], row)
  {
    HookForLinkedUser(dir, user, row);
    GuardForLinkedUser(dir, user, DocGroup(row), DocMember(row));
    if DocGroup(row).Some? { LedRangeIsLeadership(dir, dir.memberOf[user], DocGroup(row).value); }
  }

  /** An unlinked user without those roles is listed every row, and guarded from all with an anchor. */
  lemma UnlinkedUserIsListedEverything(dir: Directory, user: string, row: DocRow)
    requires HasSchema(row) && user !in dir.memberOf
    requires user in dir.roles ==> dir.roles[user] !! {OrgAdmin, BranchAdmin, Auditor}
    ensures GroupScopedConditions(dir, user, row.doctype) == NoRestriction
    ensures AssertGroupScope(dir, DocGroup(row), DocMember(row), user) <==> DocGroup(row).None? && DocMember(row).None?
  {
  }

  // ---- branch axis and approval authority ------------------------------------------

  predicate CanAccessBranch(branch: Option<string>, allowed: seq<string>, roles: set<Role>) {
    || roles * GLOBAL_BRANCH_ROLES != {}
    || !Truthy(branch)
    || branch.value in allowed
  }

  datatype ApproverLevel = ParentLevel | AncestorLevel | BranchAdminLevel

  /** The fields of a materialized approval step that the authority check reads. */
  datatype StepView = StepView(level: ApproverLevel, approverMember: Option<string>, approverUser: Option<string>,
                               docBranch: Option<string>, docGroup: Option<string>)

  predicate BranchAccess(dir: Directory, user: string, branch: Option<string>) {
    CanAccessBranch(branch, AllowedBranches(dir, user), UserRoles(dir, user))
  }

  predicate IsResolvedApprover(dir: Directory, step: StepView, user: string) {
    || (Truthy(step.approverUser) && step.approverUser.value == user)
    || (Truthy(step.approverMember) && Truthy(MemberFor(dir, user)) && step.approverMember == MemberFor(dir, user))
    || (step.level == BranchAdminLevel && BranchAdmin in UserRoles(dir, user)
        && BranchAccess(dir, user, step.docBranch))
  }

  predicate CanDecideApprovalStep(dir: Directory, step: StepView, user: string) {
    if !IsResolvedApprover(dir, step, user) then false
    else if !BranchAccess(dir, user, step.docBranch) then false
    else if Truthy(step.docGroup) && step.level != BranchAdminLevel then
      if IsBypass(UserRoles(dir, user)) then true
      else
        match GroupBounds(dir, step.docGroup.value)
        case None => false
        case Some(bounds) => exists led :: led in ResolveLeaderScope(dir, user).led && Contains(led, bounds)
    else true
  }

  /** The branch axis: an unset branch, one the user is permitted, or a role that sees every branch. */
  ghost predicate BranchIsOpen(dir: Directory, user: string, branch: Option<string>) {
    || branch == None || branch == Some("")
    || (user in dir.branchPermissions && branch.value in dir.branchPermissions[user])
    || (user in dir.roles && (OrgAdmin in dir.roles[user] || Auditor in dir.roles[user]))
  }

  /** The step's named user, or the user linked to its named member. */
  ghost predicate IsNamed(dir: Directory, step: StepView, user: string) {
    || (step.approverUser == Some(user) && user != "")
    || (user in dir.memberOf && step.approverMember == Some(dir.memberOf[user]))
  }

  lemma BranchAccessIsOpen(dir: Directory, user: string, branch: Option<string>)
    ensures BranchAccess(dir, user, branch) <==> BranchIsOpen(dir, user, branch)
  {
    var roles := UserRoles(dir, user);
    if role :| role in roles * GLOBAL_BRANCH_ROLES { assert role == OrgAdmin || role == Auditor; }
    assert OrgAdmin in GLOBAL_BRANCH_ROLES && Auditor in GLOBAL_BRANCH_ROLES;
    if role :| role in roles && role in GLOBAL_BRANCH_ROLES { assert role in roles * GLOBAL_BRANCH_ROLES; }
  }

  /** The branch-admin step is decided by whoever it names, or any branch admin, to whom the branch is open. */
  lemma AdminStepDeciders(dir: Directory, step: StepView, user: string)
    requires WellKeyed(dir) && step.level == BranchAdminLevel
    ensures CanDecideApprovalStep(dir, step, user) <==>
            && (IsNamed(dir, step, user) || (user in dir.roles && BranchAdmin in dir.roles[user]))
            && BranchIsOpen(dir, user, step.docBranch)
  {
    BranchAccessIsOpen(dir, user, step.docBranch);
  }

  /**
   * A leader step is decided by whoever it names, to whom the branch is open, and who leads the step's group
   * or one above it; the last is waived without a group and for org admins, branch admins and auditors.
   */
  lemma LeaderStepDeciders(dir: Directory, step: StepView, user: string)
    requires WellKeyed(dir) && ValidNestedSet(dir.groups) && step.level != BranchAdminLevel
    ensures CanDecideApprovalStep(dir, step, user) <==>
            && IsNamed(dir, step, user) && BranchIsOpen(dir, user, step.docBranch)
            && (|| step.docGroup == None || step.docGroup == Some("")
                || (user in dir.roles && dir.roles[user] * {OrgAdmin, BranchAdmin, Auditor} != {})
                || (user in dir.memberOf && LeadsAtOrAbove(dir, dir.memberOf[user], step.docGroup.value)))
  {
    BranchAccessIsOpen(dir, user, step.docBranch);
    if Truthy(step.docGroup) && user in dir.memberOf {
      var m, group := dir.memberOf[user], step.docGroup.value;
      if GroupBounds(dir, group).Some? {
        ContainmentIsLeadership(dir, m, group);
      } else {
        UnknownGroupHasNoLeader(dir, m, group);
      }
    }
  }
}
