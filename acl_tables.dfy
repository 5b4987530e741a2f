/**
 * What each registry operation does to the tables, as functions of the old
 * table contents, and what that means for the resolution queries.
 * The methods of `AclRegistry.AclService` are proved to produce exactly these
 * tables; the lemmas here state the properties of the operations.
 */
module AclTables {

  import opened Rows
  import opened AclTypes
  import opened AclQueries

  // ------------------------------------------------ uniqueness of keys

  /** Role table keys: the row, its id, and its (domain, name) pair are unique; ids are below the next id. */
  ghost predicate RoleTable(roles: seq<Role>, nextId: int) {
    && NoDup(roles)
    && (forall x, y :: x in roles && y in roles && x.id == y.id ==> x == y)
    && (forall x, y :: x in roles && y in roles && x.domainId == y.domainId && x.name == y.name ==> x == y)
    && (forall x :: x in roles ==> x.id < nextId)
  }

  /** Group table keys, as for roles. */
  ghost predicate GroupTable(groups: seq<Group>, nextId: int) {
    && NoDup(groups)
    && (forall x, y :: x in groups && y in groups && x.id == y.id ==> x == y)
    && (forall x, y :: x in groups && y in groups && x.domainId == y.domainId && x.name == y.name ==> x == y)
    && (forall x :: x in groups ==> x.id < nextId)
  }

  /** A role with the next id and a name new in its domain keeps the role table keyed. */
  lemma RoleTableSnoc(roles: seq<Role>, nextId: int, role: Role)
    requires RoleTable(roles, nextId) && role.id == nextId
    requires forall x :: x in roles ==> !(x.domainId == role.domainId && x.name == role.name)
    ensures RoleTable(roles + [role], nextId + 1)
  {
    NoDupSnoc(roles, role);
  }

  /** A group with the next id and a name new in its domain keeps the group table keyed. */
  lemma GroupTableSnoc(groups: seq<Group>, nextId: int, group: Group)
    requires GroupTable(groups, nextId) && group.id == nextId
    requires forall x :: x in groups ==> !(x.domainId == group.domainId && x.name == group.name)
    ensures GroupTable(groups + [group], nextId + 1)
  {
    NoDupSnoc(groups, group);
  }

  /** `e` is the entity_permission row for this (group, entity type, entity id, access type) key. */
  predicate HasEntityKey(e: EntityPermission, groupId: int, entityType: string, entityId: int, accessType: AccessType) {
    e.groupId == groupId && e.entityType == entityType && e.entityId == entityId && e.accessType == accessType
  }

  /** At most one entity_permission row per key, whatever its allow flag. */
  ghost predicate EntityKeyed(ep: seq<EntityPermission>) {
    && NoDup(ep)
    && (forall x, y :: x in ep && y in ep && HasEntityKey(y, x.groupId, x.entityType, x.entityId, x.accessType) ==> x == y)
  }

  ghost predicate HasRole(roles: seq<Role>, id: int) {
    exists x :: x in roles && x.id == id
  }

  ghost predicate HasGroup(groups: seq<Group>, id: int) {
    exists x :: x in groups && x.id == id
  }

  /** Every group link and API grant points at an existing group and role; no row is stored twice. */
  ghost predicate LinksValid(roles: seq<Role>, groups: seq<Group>, grm: seq<GroupRoleLink>,
                             gam: seq<GroupAccountLink>, ap: seq<ApiPermission>) {
    && NoDup(grm) && NoDup(gam) && NoDup(ap)
    && (forall l :: l in grm ==> HasGroup(groups, l.groupId) && HasRole(roles, l.roleId))
    && (forall l :: l in gam ==> HasGroup(groups, l.groupId))
    && (forall p :: p in ap ==> HasRole(roles, p.roleId))
  }

  /**
   * The invariant of the service's tables: the keys hold, and the cascading
   * deletes leave no link or API grant pointing at a missing role or group.
   * Policy and entity rows may outlive their role or group, but never carry
   * an id handed out later.
   */
  ghost predicate TablesValid(roles: seq<Role>, groups: seq<Group>, grm: seq<GroupRoleLink>,
                              gam: seq<GroupAccountLink>, ap: seq<ApiPermission>, pp: seq<PolicyPermission>,
                              ep: seq<EntityPermission>, nextRoleId: int, nextGroupId: int) {
    && RoleTable(roles, nextRoleId)
    && GroupTable(groups, nextGroupId)
    && LinksValid(roles, groups, grm, gam, ap)
    && (forall p :: p in pp ==> p.roleId < nextRoleId)
    && EntityKeyed(ep)
    && (forall e :: e in ep ==> e.groupId < nextGroupId)
  }

  // ------------------------------------------------------ roles, groups

  /** The role table without the role of this id (role DAO `remove`). */
  function RolesWithout(roles: seq<Role>, roleId: int): (r: seq<Role>)
    ensures forall x :: x in r <==> x in roles && x.id != roleId
    ensures NoDup(roles) ==> NoDup(r)
  {
    Keep(roles, (x: Role) => x.id != roleId)
  }

  /** The group table without the group of this id (group DAO `remove`). */
  function GroupsWithout(groups: seq<Group>, groupId: int): (r: seq<Group>)
    ensures forall x :: x in r <==> x in groups && x.id != groupId
    ensures NoDup(groups) ==> NoDup(r)
  {
    Keep(groups, (x: Group) => x.id != groupId)
  }

  /** group_role_map rows of a role (`listByRoleId`). */
  function RoleLinksOfRole(grm: seq<GroupRoleLink>, roleId: int): (r: seq<GroupRoleLink>)
    ensures forall l :: l in r <==> l in grm && l.roleId == roleId
  {
    Keep(grm, (l: GroupRoleLink) => l.roleId == roleId)
  }

  /** group_role_map rows of a group (`listByGroupId`). */
  function RoleLinksOfGroup(grm: seq<GroupRoleLink>, groupId: int): (r: seq<GroupRoleLink>)
    ensures forall l :: l in r <==> l in grm && l.groupId == groupId
  {
    Keep(grm, (l: GroupRoleLink) => l.groupId == groupId)
  }

  /** group_account_map rows of a group (`listByGroupId`). */
  function AccountLinksOfGroup(gam: seq<GroupAccountLink>, groupId: int): (r: seq<GroupAccountLink>)
    ensures forall l :: l in r <==> l in gam && l.groupId == groupId
  {
    Keep(gam, (l: GroupAccountLink) => l.groupId == groupId)
  }

  /** api_permission rows of a role (`listByRoleId`). */
  function ApisOfRole(ap: seq<ApiPermission>, roleId: int): (r: seq<ApiPermission>)
    ensures forall p :: p in r <==> p in ap && p.roleId == roleId
  {
    Keep(ap, (p: ApiPermission) => p.roleId == roleId)
  }

  /** policy_permission rows of a role (`listByRole`). */
  function PolicyRowsOf(pp: seq<PolicyPermission>, roleId: int): (r: seq<PolicyPermission>)
    ensures forall p :: p in r <==> p in pp && p.roleId == roleId
  {
    Keep(pp, (p: PolicyPermission) => p.roleId == roleId)
  }

  /** group_role_map without the rows of a role. */
  function RoleLinksWithoutRole(grm: seq<GroupRoleLink>, roleId: int): (r: seq<GroupRoleLink>)
    ensures forall l :: l in r <==> l in grm && l.roleId != roleId
    ensures NoDup(grm) ==> NoDup(r)
  {
    Keep(grm, (l: GroupRoleLink) => l.roleId != roleId)
  }

  /** group_role_map without the rows of a group. */
  function RoleLinksWithoutGroup(grm: seq<GroupRoleLink>, groupId: int): (r: seq<GroupRoleLink>)
    ensures forall l :: l in r <==> l in grm && l.groupId != groupId
    ensures NoDup(grm) ==> NoDup(r)
  {
    Keep(grm, (l: GroupRoleLink) => l.groupId != groupId)
  }

  /** group_account_map without the rows of a group. */
  function AccountLinksWithoutGroup(gam: seq<GroupAccountLink>, groupId: int): (r: seq<GroupAccountLink>)
    ensures forall l :: l in r <==> l in gam && l.groupId != groupId
    ensures NoDup(gam) ==> NoDup(r)
  {
    Keep(gam, (l: GroupAccountLink) => l.groupId != groupId)
  }

  /** api_permission without the rows of a role. */
  function ApisWithoutRole(ap: seq<ApiPermission>, roleId: int): (r: seq<ApiPermission>)
    ensures forall p :: p in r <==> p in ap && p.roleId != roleId
    ensures NoDup(ap) ==> NoDup(r)
  {
    Keep(ap, (p: ApiPermission) => p.roleId != roleId)
  }

  /**
   * Removing, one by one, the rows a cascade lists leaves exactly the rows
   * of other keys, in table order.
   */
  lemma CascadeRoleLinks(grm: seq<GroupRoleLink>, roleId: int)
    ensures RemoveRows(grm, RoleLinksOfRole(grm, roleId)) == RoleLinksWithoutRole(grm, roleId)
  {
    RemoveSelected(grm, (l: GroupRoleLink) => l.roleId == roleId, (l: GroupRoleLink) => l.roleId != roleId);
  }

  lemma CascadeApis(ap: seq<ApiPermission>, roleId: int)
    ensures RemoveRows(ap, ApisOfRole(ap, roleId)) == ApisWithoutRole(ap, roleId)
  {
    RemoveSelected(ap, (p: ApiPermission) => p.roleId == roleId, (p: ApiPermission) => p.roleId != roleId);
  }

  lemma CascadeGroupRoleLinks(grm: seq<GroupRoleLink>, groupId: int)
    ensures RemoveRows(grm, RoleLinksOfGroup(grm, groupId)) == RoleLinksWithoutGroup(grm, groupId)
  {
    RemoveSelected(grm, (l: GroupRoleLink) => l.groupId == groupId, (l: GroupRoleLink) => l.groupId != groupId);
  }

  lemma CascadeGroupAccountLinks(gam: seq<GroupAccountLink>, groupId: int)
    ensures RemoveRows(gam, AccountLinksOfGroup(gam, groupId)) == AccountLinksWithoutGroup(gam, groupId)
  {
    RemoveSelected(gam, (l: GroupAccountLink) => l.groupId == groupId, (l: GroupAccountLink) => l.groupId != groupId);
  }

  /**
   * Once a role is deleted (its row and its group links gone), no account
   * reaches it, so its policy_permission rows, which the delete leaves in
   * place, no longer take part in choosing a policy permission.
   */
  lemma DeletedRoleUnreachable(roles: seq<Role>, grm: seq<GroupRoleLink>, gam: seq<GroupAccountLink>,
                               pp: seq<PolicyPermission>, roleId: int, accountId: int,
                               entityType: string, accessType: AccessType)
    ensures forall x :: x in StaticRoles(RolesWithout(roles, roleId), RoleLinksWithoutRole(grm, roleId), gam, accountId)
                        ==> x.id != roleId
    ensures forall m :: m in RoleMatches(pp, StaticRoles(RolesWithout(roles, roleId), RoleLinksWithoutRole(grm, roleId), gam, accountId), entityType, accessType)
                        ==> m.roleId != roleId
  {
    var rs := StaticRoles(RolesWithout(roles, roleId), RoleLinksWithoutRole(grm, roleId), gam, accountId);
    MatchesComeFromRoles(pp, rs, entityType, accessType);
  }

  /** Every row the policy lookup finds belongs to one of the roles looked at. */
  lemma {:induction false} MatchesComeFromRoles(pp: seq<PolicyPermission>, rs: seq<Role>, entityType: string, accessType: AccessType)
    ensures forall m :: m in RoleMatches(pp, rs, entityType, accessType) ==> exists x :: x in rs && x.id == m.roleId
    decreases |rs|
  {
    if rs != [] {
      var front := rs[..|rs| - 1];
      MatchesComeFromRoles(pp, front, entityType, accessType);
      assert forall x :: x in front ==> x in rs;
      assert rs[|rs| - 1] in rs;
    }
  }

  /** After a group is deleted no account is in it any more. */
  lemma DeletedGroupUnreachable(groups: seq<Group>, gam: seq<GroupAccountLink>, groupId: int, accountId: int)
    ensures forall g :: g in AccountGroups(GroupsWithout(groups, groupId), AccountLinksWithoutGroup(gam, groupId), accountId)
                        ==> g.id != groupId
  {
  }

  // -------------------------------------------- parent role inheritance

  /** The rows of a parent role, re-assigned to the new role (`setAclRoleId` before `persist`). */
  function CopyToRole(rows: seq<PolicyPermission>, roleId: int): (r: seq<PolicyPermission>)
    ensures |r| == |rows|
    ensures forall i :: 0 <= i < |rows| ==> r[i] == rows[i].(roleId := roleId)
  {
    seq(|rows|, i requires 0 <= i < |rows| => rows[i].(roleId := roleId))
  }

  /** The rows a new role inherits: none without a parent, else every row of the parent. */
  function InheritedRows(pp: seq<PolicyPermission>, parentRoleId: Option<int>, roleId: int): (r: seq<PolicyPermission>)
    ensures forall p :: p in r ==> p.roleId == roleId
  {
    match parentRoleId
    case None => []
    case Some(parent) => CopyToRole(PolicyRowsOf(pp, parent), roleId)
  }

  /**
   * A role created from a parent holds exactly the parent's rows (same
   * entity type, access type, scope and allow flag, in the parent's order),
   * and the parent's own rows are untouched: the rows are copied, not shared.
   */
  lemma ChildInheritsParent(pp: seq<PolicyPermission>, parentRoleId: int, roleId: int)
    requires forall p :: p in pp ==> p.roleId < roleId
    ensures PolicyRowsOf(pp + CopyToRole(PolicyRowsOf(pp, parentRoleId), roleId), roleId)
            == CopyToRole(PolicyRowsOf(pp, parentRoleId), roleId)
    ensures parentRoleId != roleId ==>
            PolicyRowsOf(pp + CopyToRole(PolicyRowsOf(pp, parentRoleId), roleId), parentRoleId)
            == PolicyRowsOf(pp, parentRoleId)
  {
    var copy := CopyToRole(PolicyRowsOf(pp, parentRoleId), roleId);
    KeepAppend(pp, copy, (p: PolicyPermission) => p.roleId == roleId);
    KeepNone(pp, (p: PolicyPermission) => p.roleId == roleId);
    KeepAll(copy, (p: PolicyPermission) => p.roleId == roleId);
    KeepAppend(pp, copy, (p: PolicyPermission) => p.roleId == parentRoleId);
    if parentRoleId != roleId {
      KeepNone(copy, (p: PolicyPermission) => p.roleId == parentRoleId);
    }
  }

  // ----------------------------------------------------- api permissions

  /** The (role, api) rows for a list of API names. */
  function ApiRows(roleId: int, apiNames: seq<string>): (r: seq<ApiPermission>)
    ensures |r| == |apiNames|
    ensures forall i :: 0 <= i < |apiNames| ==> r[i] == ApiPermission(roleId, apiNames[i])
  {
    seq(|apiNames|, i requires 0 <= i < |apiNames| => ApiPermission(roleId, apiNames[i]))
  }

  lemma ApiRowsMembership(roleId: int, apiNames: seq<string>)
    ensures forall p :: p in ApiRows(roleId, apiNames) <==> p.roleId == roleId && p.apiName in apiNames
  {
    var rows := ApiRows(roleId, apiNames);
    forall p ensures p in rows <==> p.roleId == roleId && p.apiName in apiNames {
      if p.roleId == roleId && p.apiName in apiNames {
        var i :| 0 <= i < |apiNames| && apiNames[i] == p.apiName;
        assert rows[i] == p;
      }
    }
  }

  /**
   * Granting API names to a role: afterwards each listed name has exactly
   * one (role, api) row, the old rows are all still there in their places,
   * and every added row is a (role, listed name) row.
   */
  lemma GrantApiExactlyOnce(ap: seq<ApiPermission>, roleId: int, apiNames: seq<string>)
    requires NoDup(ap)
    ensures var r := InsertAbsent(ap, ApiRows(roleId, apiNames));
            && NoDup(r)
            && |ap| <= |r| && r[..|ap|] == ap
            && (forall i :: |ap| <= i < |r| ==> r[i].roleId == roleId && r[i].apiName in apiNames)
            && (forall name :: name in apiNames ==> Occurrences(r, ApiPermission(roleId, name)) == 1)
  {
    var r := InsertAbsent(ap, ApiRows(roleId, apiNames));
    ApiRowsMembership(roleId, apiNames);
    InsertAbsentFacts(ap, ApiRows(roleId, apiNames));
    forall name | name in apiNames ensures Occurrences(r, ApiPermission(roleId, name)) == 1 {
      NoDupOccurrences(r, ApiPermission(roleId, name));
    }
  }

  /** Revoking API names removes exactly the (role, listed name) rows. */
  lemma RevokeApiExactly(ap: seq<ApiPermission>, roleId: int, apiNames: seq<string>)
    ensures forall p :: p in RemoveRows(ap, ApiRows(roleId, apiNames)) <==>
                        p in ap && !(p.roleId == roleId && p.apiName in apiNames)
  {
    ApiRowsMembership(roleId, apiNames);
  }

  /** After a grant, the API is accessible to any role list holding the role. */
  lemma GrantApiMakesAccessible(ap: seq<ApiPermission>, role: Role, apiNames: seq<string>, name: string, roles: seq<Role>)
    requires role in roles && name in apiNames
    ensures ApiAccessible(InsertAbsent(ap, ApiRows(role.id, apiNames)), name, roles)
  {
    var r := InsertAbsent(ap, ApiRows(role.id, apiNames));
    ApiRowsMembership(role.id, apiNames);
    InsertAbsentFacts(ap, ApiRows(role.id, apiNames));
    assert ApiPermission(role.id, name) in r;
    var i :| 0 <= i < |r| && r[i] == ApiPermission(role.id, name);
    var j :| 0 <= j < |roles| && roles[j] == role;
    assert r[i].apiName == name && r[i].roleId == roles[j].id;
  }

  /** After a revoke, the API is no longer accessible to roles that all have the revoked role's id. */
  lemma RevokeApiMakesInaccessible(ap: seq<ApiPermission>, roleId: int, apiNames: seq<string>, name: string, roles: seq<Role>)
    requires name in apiNames
    requires forall j :: 0 <= j < |roles| ==> roles[j].id == roleId
    ensures !ApiAccessible(RemoveRows(ap, ApiRows(roleId, apiNames)), name, roles)
  {
    var r := RemoveRows(ap, ApiRows(roleId, apiNames));
    RevokeApiExactly(ap, roleId, apiNames);
    forall i, j | 0 <= i < |r| && 0 <= j < |roles| ensures !(r[i].apiName == name && r[i].roleId == roles[j].id) {
      assert r[i] in r;
    }
  }

  // ---------------------------------------------------------- links

  /** The (group, role) rows for a list of role ids. */
  function RoleLinks(groupId: int, roleIds: seq<int>): (r: seq<GroupRoleLink>)
    ensures |r| == |roleIds|
    ensures forall i :: 0 <= i < |roleIds| ==> r[i] == GroupRoleLink(groupId, roleIds[i])
  {
    seq(|roleIds|, i requires 0 <= i < |roleIds| => GroupRoleLink(groupId, roleIds[i]))
  }

  /** The (group, account) rows for a list of account ids. */
  function AccountLinks(groupId: int, accountIds: seq<int>): (r: seq<GroupAccountLink>)
    ensures |r| == |accountIds|
    ensures forall i :: 0 <= i < |accountIds| ==> r[i] == GroupAccountLink(groupId, accountIds[i])
  {
    seq(|accountIds|, i requires 0 <= i < |accountIds| => GroupAccountLink(groupId, accountIds[i]))
  }

  /** Adding roles to a group: afterwards each (group, role) link is there exactly once. */
  lemma AddRolesExactlyOnce(grm: seq<GroupRoleLink>, groupId: int, roleIds: seq<int>)
    requires NoDup(grm)
    ensures forall i :: 0 <= i < |roleIds| ==>
              Occurrences(InsertAbsent(grm, RoleLinks(groupId, roleIds)), GroupRoleLink(groupId, roleIds[i])) == 1
  {
    var r := InsertAbsent(grm, RoleLinks(groupId, roleIds));
    InsertAbsentFacts(grm, RoleLinks(groupId, roleIds));
    forall i | 0 <= i < |roleIds| ensures Occurrences(r, GroupRoleLink(groupId, roleIds[i])) == 1 {
      assert RoleLinks(groupId, roleIds)[i] == GroupRoleLink(groupId, roleIds[i]);
      NoDupOccurrences(r, GroupRoleLink(groupId, roleIds[i]));
    }
  }

  /** Adding accounts to a group: afterwards each (group, account) link is there exactly once. */
  lemma AddAccountsExactlyOnce(gam: seq<GroupAccountLink>, groupId: int, accountIds: seq<int>)
    requires NoDup(gam)
    ensures forall i :: 0 <= i < |accountIds| ==>
              Occurrences(InsertAbsent(gam, AccountLinks(groupId, accountIds)), GroupAccountLink(groupId, accountIds[i])) == 1
  {
    var r := InsertAbsent(gam, AccountLinks(groupId, accountIds));
    InsertAbsentFacts(gam, AccountLinks(groupId, accountIds));
    forall i | 0 <= i < |accountIds| ensures Occurrences(r, GroupAccountLink(groupId, accountIds[i])) == 1 {
      assert AccountLinks(groupId, accountIds)[i] == GroupAccountLink(groupId, accountIds[i]);
      NoDupOccurrences(r, GroupAccountLink(groupId, accountIds[i]));
    }
  }

  /**
   * Once an account is linked to a group and the group to a role, the
   * role is among the account's static roles.
   */
  lemma LinkedRoleIsStatic(roles: seq<Role>, grm: seq<GroupRoleLink>, gam: seq<GroupAccountLink>,
                           groupId: int, roleIds: seq<int>, accountIds: seq<int>, role: Role, accountId: int)
    requires role in roles && role.id in roleIds && accountId in accountIds
    ensures role in StaticRoles(roles, InsertAbsent(grm, RoleLinks(groupId, roleIds)),
                                InsertAbsent(gam, AccountLinks(groupId, accountIds)), accountId)
  {
    var grm' := InsertAbsent(grm, RoleLinks(groupId, roleIds));
    var gam' := InsertAbsent(gam, AccountLinks(groupId, accountIds));
    InsertAbsentFacts(grm, RoleLinks(groupId, roleIds));
    InsertAbsentFacts(gam, AccountLinks(groupId, accountIds));
    var i :| 0 <= i < |roleIds| && roleIds[i] == role.id;
    var k :| 0 <= k < |accountIds| && accountIds[k] == accountId;
    assert RoleLinks(groupId, roleIds)[i] == GroupRoleLink(groupId, role.id);
    assert AccountLinks(groupId, accountIds)[k] == GroupAccountLink(groupId, accountId);
    assert GroupAccountLink(groupId, accountId) in gam';
    assert Reaches(grm', gam', accountId, role.id);
  }

  // ------------------------------------------------- entity permissions

  /** The row for this key, whatever its allow flag (`findByGroupAndEntity`). */
  function FindEntityPermission(ep: seq<EntityPermission>, groupId: int, entityType: string,
                                entityId: int, accessType: AccessType): (r: Option<EntityPermission>)
    ensures r.Some? ==> r.value in ep && HasEntityKey(r.value, groupId, entityType, entityId, accessType)
    ensures r.None? <==> forall e :: e in ep ==> !HasEntityKey(e, groupId, entityType, entityId, accessType)
  {
    FindFirst(ep, (e: EntityPermission) => HasEntityKey(e, groupId, entityType, entityId, accessType))
  }

  /** The entity grant: an allow row is added when no row of that key exists. */
  function GrantEntity(ep: seq<EntityPermission>, groupId: int, entityType: string, entityId: int,
                       entityUuid: string, accessType: AccessType): seq<EntityPermission>
  {
    if FindEntityPermission(ep, groupId, entityType, entityId, accessType).None? then
      ep + [EntityPermission(groupId, entityType, entityId, entityUuid, accessType, true)]
    else ep
  }

  /** The entity revoke: the row of that key is removed, whatever its allow flag. */
  function RevokeEntity(ep: seq<EntityPermission>, groupId: int, entityType: string, entityId: int,
                        accessType: AccessType): seq<EntityPermission>
  {
    match FindEntityPermission(ep, groupId, entityType, entityId, accessType)
    case Some(e) => RemoveRow(ep, e)
    case None => ep
  }

  /**
   * After a grant there is exactly one row for the key; it is an allow row
   * unless a row of that key (possibly a deny row) was already there, and
   * no other row changes.
   */
  lemma GrantEntityOneRow(ep: seq<EntityPermission>, groupId: int, entityType: string, entityId: int,
                          entityUuid: string, accessType: AccessType)
    requires EntityKeyed(ep)
    ensures var r := GrantEntity(ep, groupId, entityType, entityId, entityUuid, accessType);
            && EntityKeyed(r)
            && r[..|ep|] == ep
            && (exists i :: 0 <= i < |r| && HasEntityKey(r[i], groupId, entityType, entityId, accessType))
            && ((forall e :: e in ep ==> !HasEntityKey(e, groupId, entityType, entityId, accessType)) ==>
                  r == ep + [EntityPermission(groupId, entityType, entityId, entityUuid, accessType, true)])
            && ((exists e :: e in ep && HasEntityKey(e, groupId, entityType, entityId, accessType)) ==> r == ep)
  {
    var r := GrantEntity(ep, groupId, entityType, entityId, entityUuid, accessType);
    var f := FindEntityPermission(ep, groupId, entityType, entityId, accessType);
    if f.Some? {
      var i :| 0 <= i < |ep| && ep[i] == f.value;
      assert HasEntityKey(r[i], groupId, entityType, entityId, accessType);
    } else {
      var row := EntityPermission(groupId, entityType, entityId, entityUuid, accessType, true);
      assert r[|ep|] == row;
      NoDupSnoc(ep, row);
    }
  }

  /** After a revoke no row of the key is left; every row of another key stays. */
  lemma RevokeEntityNoRow(ep: seq<EntityPermission>, groupId: int, entityType: string, entityId: int,
                          accessType: AccessType)
    requires EntityKeyed(ep)
    ensures var r := RevokeEntity(ep, groupId, entityType, entityId, accessType);
            && EntityKeyed(r)
            && (forall e :: e in r <==> e in ep && !HasEntityKey(e, groupId, entityType, entityId, accessType))
  {
  }

  /**
   * After a grant to a group of the account, the entity is in the account's
   * allowed set, unless that group already held a deny row for the entity
   * (the grant then leaves the deny row in place).
   */
  lemma GrantEntityAllows(ep: seq<EntityPermission>, groups: seq<Group>, gam: seq<GroupAccountLink>,
                          accountId: int, group: Group, entityType: string, entityId: int,
                          entityUuid: string, accessType: AccessType)
    requires group in groups && GroupAccountLink(group.id, accountId) in gam
    ensures entityId in AllowedIds(GrantEntity(ep, group.id, entityType, entityId, entityUuid, accessType),
                                   groups, gam, accountId, entityType, accessType)
            || (exists e :: e in ep && HasEntityKey(e, group.id, entityType, entityId, accessType) && !e.allow)
  {
    var r := GrantEntity(ep, group.id, entityType, entityId, entityUuid, accessType);
    var gs := AccountGroups(groups, gam, accountId);
    assert group in gs;
    assert group.id in GroupIds(gs);
    match FindEntityPermission(ep, group.id, entityType, entityId, accessType)
    case None =>
      assert r[|ep|] in r;
    case Some(e) =>
      assert e in r;
  }

  /** After a revoke, the group contributes the entity to neither set. */
  lemma RevokeEntityForgets(ep: seq<EntityPermission>, groupId: int, entityType: string, entityId: int,
                            accessType: AccessType, allow: bool)
    requires EntityKeyed(ep)
    ensures entityId !in EntityIds(RevokeEntity(ep, groupId, entityType, entityId, accessType),
                                   {groupId}, entityType, accessType, allow)
  {
    RevokeEntityNoRow(ep, groupId, entityType, entityId, accessType);
  }

  // ------------------------------------------ the invariant is preserved

  /** Creating a role, with the rows it inherits, keeps the tables valid. */
  lemma RoleCreatedValid(roles: seq<Role>, groups: seq<Group>, grm: seq<GroupRoleLink>, gam: seq<GroupAccountLink>,
                         ap: seq<ApiPermission>, pp: seq<PolicyPermission>, ep: seq<EntityPermission>,
                         nextRoleId: int, nextGroupId: int, role: Role, parentRoleId: Option<int>)
    requires TablesValid(roles, groups, grm, gam, ap, pp, ep, nextRoleId, nextGroupId)
    requires role.id == nextRoleId
    requires forall x :: x in roles ==> !(x.domainId == role.domainId && x.name == role.name)
    ensures TablesValid(roles + [role], groups, grm, gam, ap, pp + InheritedRows(pp, parentRoleId, role.id), ep,
                        nextRoleId + 1, nextGroupId)
  {
    RoleTableSnoc(roles, nextRoleId, role);
    forall id | HasRole(roles, id) ensures HasRole(roles + [role], id) {
      var x :| x in roles && x.id == id;
      assert x in roles + [role];
    }
  }

  /** Deleting a role together with its links and API grants keeps the tables valid. */
  lemma RoleDeletedValid(roles: seq<Role>, groups: seq<Group>, grm: seq<GroupRoleLink>, gam: seq<GroupAccountLink>,
                         ap: seq<ApiPermission>, pp: seq<PolicyPermission>, ep: seq<EntityPermission>,
                         nextRoleId: int, nextGroupId: int, roleId: int)
    requires TablesValid(roles, groups, grm, gam, ap, pp, ep, nextRoleId, nextGroupId)
    ensures TablesValid(RolesWithout(roles, roleId), groups, RoleLinksWithoutRole(grm, roleId), gam,
                        ApisWithoutRole(ap, roleId), pp, ep, nextRoleId, nextGroupId)
  {
    var rs := RolesWithout(roles, roleId);
    forall id | HasRole(roles, id) && id != roleId ensures HasRole(rs, id) {
      var x :| x in roles && x.id == id;
      assert x in rs;
    }
  }

  /** Granting API names to an existing role keeps the tables valid. */
  lemma ApisGrantedValid(roles: seq<Role>, groups: seq<Group>, grm: seq<GroupRoleLink>, gam: seq<GroupAccountLink>,
                         ap: seq<ApiPermission>, pp: seq<PolicyPermission>, ep: seq<EntityPermission>,
                         nextRoleId: int, nextGroupId: int, roleId: int, apiNames: seq<string>)
    requires TablesValid(roles, groups, grm, gam, ap, pp, ep, nextRoleId, nextGroupId)
    requires HasRole(roles, roleId)
    ensures TablesValid(roles, groups, grm, gam, InsertAbsent(ap, ApiRows(roleId, apiNames)), pp, ep, nextRoleId, nextGroupId)
  {
    ApiRowsMembership(roleId, apiNames);
    InsertAbsentFacts(ap, ApiRows(roleId, apiNames));
  }

  /** Revoking API names keeps the tables valid. */
  lemma ApisRevokedValid(roles: seq<Role>, groups: seq<Group>, grm: seq<GroupRoleLink>, gam: seq<GroupAccountLink>,
                         ap: seq<ApiPermission>, pp: seq<PolicyPermission>, ep: seq<EntityPermission>,
                         nextRoleId: int, nextGroupId: int, roleId: int, apiNames: seq<string>)
    requires TablesValid(roles, groups, grm, gam, ap, pp, ep, nextRoleId, nextGroupId)
    ensures TablesValid(roles, groups, grm, gam, RemoveRows(ap, ApiRows(roleId, apiNames)), pp, ep, nextRoleId, nextGroupId)
  {
  }

  /** Granting an entity permission to an existing group keeps the tables valid. */
  lemma EntityGrantedValid(roles: seq<Role>, groups: seq<Group>, grm: seq<GroupRoleLink>, gam: seq<GroupAccountLink>,
                           ap: seq<ApiPermission>, pp: seq<PolicyPermission>, ep: seq<EntityPermission>,
                           nextRoleId: int, nextGroupId: int, groupId: int, entityType: string, entityId: int,
                           entityUuid: string, accessType: AccessType)
    requires TablesValid(roles, groups, grm, gam, ap, pp, ep, nextRoleId, nextGroupId)
    requires HasGroup(groups, groupId)
    ensures TablesValid(roles, groups, grm, gam, ap, pp, GrantEntity(ep, groupId, entityType, entityId, entityUuid, accessType),
                        nextRoleId, nextGroupId)
  {
    GrantEntityOneRow(ep, groupId, entityType, entityId, entityUuid, accessType);
  }

  /** Revoking an entity permission keeps the tables valid. */
  lemma EntityRevokedValid(roles: seq<Role>, groups: seq<Group>, grm: seq<GroupRoleLink>, gam: seq<GroupAccountLink>,
                           ap: seq<ApiPermission>, pp: seq<PolicyPermission>, ep: seq<EntityPermission>,
                           nextRoleId: int, nextGroupId: int, groupId: int, entityType: string, entityId: int,
                           accessType: AccessType)
    requires TablesValid(roles, groups, grm, gam, ap, pp, ep, nextRoleId, nextGroupId)
    ensures TablesValid(roles, groups, grm, gam, ap, pp, RevokeEntity(ep, groupId, entityType, entityId, accessType),
                        nextRoleId, nextGroupId)
  {
    RevokeEntityNoRow(ep, groupId, entityType, entityId, accessType);
  }

  /** Linking an existing group to existing roles keeps the tables valid. */
  lemma RoleLinksAddedValid(roles: seq<Role>, groups: seq<Group>, grm: seq<GroupRoleLink>, gam: seq<GroupAccountLink>,
                            ap: seq<ApiPermission>, pp: seq<PolicyPermission>, ep: seq<EntityPermission>,
                            nextRoleId: int, nextGroupId: int, groupId: int, roleIds: seq<int>)
    requires TablesValid(roles, groups, grm, gam, ap, pp, ep, nextRoleId, nextGroupId)
    requires HasGroup(groups, groupId)
    requires forall i :: 0 <= i < |roleIds| ==> HasRole(roles, roleIds[i])
    ensures TablesValid(roles, groups, InsertAbsent(grm, RoleLinks(groupId, roleIds)), gam, ap, pp, ep, nextRoleId, nextGroupId)
  {
    var links := RoleLinks(groupId, roleIds);
    InsertAbsentFacts(grm, links);
    forall l | l in links ensures HasGroup(groups, l.groupId) && HasRole(roles, l.roleId) {
      var i :| 0 <= i < |links| && links[i] == l;
    }
  }

  /** Unlinking roles from a group keeps the tables valid. */
  lemma RoleLinksRemovedValid(roles: seq<Role>, groups: seq<Group>, grm: seq<GroupRoleLink>, gam: seq<GroupAccountLink>,
                              ap: seq<ApiPermission>, pp: seq<PolicyPermission>, ep: seq<EntityPermission>,
                              nextRoleId: int, nextGroupId: int, groupId: int, roleIds: seq<int>)
    requires TablesValid(roles, groups, grm, gam, ap, pp, ep, nextRoleId, nextGroupId)
    ensures TablesValid(roles, groups, RemoveRows(grm, RoleLinks(groupId, roleIds)), gam, ap, pp, ep, nextRoleId, nextGroupId)
  {
  }

  /** Linking accounts to an existing group keeps the tables valid. */
  lemma AccountLinksAddedValid(roles: seq<Role>, groups: seq<Group>, grm: seq<GroupRoleLink>, gam: seq<GroupAccountLink>,
                               ap: seq<ApiPermission>, pp: seq<PolicyPermission>, ep: seq<EntityPermission>,
                               nextRoleId: int, nextGroupId: int, groupId: int, accountIds: seq<int>)
    requires TablesValid(roles, groups, grm, gam, ap, pp, ep, nextRoleId, nextGroupId)
    requires HasGroup(groups, groupId)
    ensures TablesValid(roles, groups, grm, InsertAbsent(gam, AccountLinks(groupId, accountIds)), ap, pp, ep, nextRoleId, nextGroupId)
  {
    var links := AccountLinks(groupId, accountIds);
    InsertAbsentFacts(gam, links);
    forall l | l in links ensures HasGroup(groups, l.groupId) {
      var i :| 0 <= i < |links| && links[i] == l;
    }
  }

  /** Unlinking accounts from a group keeps the tables valid. */
  lemma AccountLinksRemovedValid(roles: seq<Role>, groups: seq<Group>, grm: seq<GroupRoleLink>, gam: seq<GroupAccountLink>,
                                 ap: seq<ApiPermission>, pp: seq<PolicyPermission>, ep: seq<EntityPermission>,
                                 nextRoleId: int, nextGroupId: int, groupId: int, accountIds: seq<int>)
    requires TablesValid(roles, groups, grm, gam, ap, pp, ep, nextRoleId, nextGroupId)
    ensures TablesValid(roles, groups, grm, RemoveRows(gam, AccountLinks(groupId, accountIds)), ap, pp, ep, nextRoleId, nextGroupId)
  {
  }

  /** Creating a group keeps the tables valid. */
  lemma GroupCreatedValid(roles: seq<Role>, groups: seq<Group>, grm: seq<GroupRoleLink>, gam: seq<GroupAccountLink>,
                          ap: seq<ApiPermission>, pp: seq<PolicyPermission>, ep: seq<EntityPermission>,
                          nextRoleId: int, nextGroupId: int, group: Group)
    requires TablesValid(roles, groups, grm, gam, ap, pp, ep, nextRoleId, nextGroupId)
    requires group.id == nextGroupId
    requires forall x :: x in groups ==> !(x.domainId == group.domainId && x.name == group.name)
    ensures TablesValid(roles, groups + [group], grm, gam, ap, pp, ep, nextRoleId, nextGroupId + 1)
  {
    GroupTableSnoc(groups, nextGroupId, group);
    forall id | HasGroup(groups, id) ensures HasGroup(groups + [group], id) {
      var x :| x in groups && x.id == id;
      assert x in groups + [group];
    }
  }

  /** Deleting a group together with its role and account links keeps the tables valid. */
  lemma GroupDeletedValid(roles: seq<Role>, groups: seq<Group>, grm: seq<GroupRoleLink>, gam: seq<GroupAccountLink>,
                          ap: seq<ApiPermission>, pp: seq<PolicyPermission>, ep: seq<EntityPermission>,
                          nextRoleId: int, nextGroupId: int, groupId: int)
    requires TablesValid(roles, groups, grm, gam, ap, pp, ep, nextRoleId, nextGroupId)
    ensures TablesValid(roles, GroupsWithout(groups, groupId), RoleLinksWithoutGroup(grm, groupId),
                        AccountLinksWithoutGroup(gam, groupId), ap, pp, ep, nextRoleId, nextGroupId)
  {
    var gs := GroupsWithout(groups, groupId);
    forall id | HasGroup(groups, id) && id != groupId ensures HasGroup(gs, id) {
      var x :| x in groups && x.id == id;
      assert x in gs;
    }
  }
}
