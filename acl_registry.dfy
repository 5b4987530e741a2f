/**
 * The ACL service: the tables it keeps and the registry operations that
 * change them, each an all-or-nothing transaction, plus the two queries
 * that accumulate a result over a scan.
 */
module AclRegistry {

  import opened Rows
  import opened AclTypes
  import opened AclQueries
  import opened AclTables

  /** The group exists and the caller passes the access check on it. */
  ghost predicate GroupUsable(caller: Caller, groups: seq<Group>, groupId: int) {
    HasGroup(groups, groupId) && CanAccess(caller, GroupSubject(groupId))
  }

  /** The role exists and the caller passes the access check on it. */
  ghost predicate RoleUsable(caller: Caller, roles: seq<Role>, roleId: int) {
    HasRole(roles, roleId) && CanAccess(caller, RoleSubject(roleId))
  }

  /** The account exists and the caller passes the access check on it. */
  predicate AccountUsable(caller: Caller, accounts: set<int>, accountId: int) {
    accountId in accounts && CanAccess(caller, AccountSubject(accountId))
  }

  /** The entity type is registered, the entity exists and the caller passes the access check on it. */
  predicate EntityUsable(caller: Caller, entities: map<(string, int), Entity>, entityType: string, entityId: int) {
    entityType in EntityClassMap && (entityType, entityId) in entities && CanAccess(caller, EntitySubject(entityType, entityId))
  }

  /** An unknown id is an invalid parameter; a known one the caller may not touch is a permission failure. */
  function LookupError(found: bool): AclError {
    if found then PermissionDenied else InvalidParameter
  }

  /** `roleIds[k]` is the first role of the list that is missing or inaccessible. */
  ghost predicate FirstUnusableRole(caller: Caller, roles: seq<Role>, roleIds: seq<int>, k: int) {
    && 0 <= k < |roleIds|
    && !RoleUsable(caller, roles, roleIds[k])
    && (forall i :: 0 <= i < k ==> RoleUsable(caller, roles, roleIds[i]))
  }

  /** `accountIds[k]` is the first account of the list that is missing or inaccessible. */
  predicate FirstUnusableAccount(caller: Caller, accounts: set<int>, accountIds: seq<int>, k: int) {
    && 0 <= k < |accountIds|
    && !AccountUsable(caller, accounts, accountIds[k])
    && (forall i :: 0 <= i < k ==> AccountUsable(caller, accounts, accountIds[i]))
  }

  /**
   * The transaction of `addAclRolesToGroup`, on a copy of group_role_map:
   * it succeeds exactly when every listed role is usable, and then holds
   * the table with each missing (group, role) link inserted; otherwise it
   * fails with the error of the first unusable role.
   */
  method LinkRoles(caller: Caller, roles: seq<Role>, grm: seq<GroupRoleLink>, groupId: int, roleIds: seq<int>)
    returns (r: Result<seq<GroupRoleLink>>)
    ensures r.Ok? <==> forall i :: 0 <= i < |roleIds| ==> RoleUsable(caller, roles, roleIds[i])
    ensures r.Err? ==> exists k :: FirstUnusableRole(caller, roles, roleIds, k) &&
                                   r.error == LookupError(FindRoleById(roles, roleIds[k]).Some?)
    ensures r.Ok? ==> r.value == InsertAbsent(grm, RoleLinks(groupId, roleIds))
  {
    ghost var links := RoleLinks(groupId, roleIds);
    var table := grm;
    InsertNoRows(grm, links[..0]);
    for i := 0 to |roleIds|
      invariant table == InsertAbsent(grm, links[..i])
      invariant forall j :: 0 <= j < i ==> RoleUsable(caller, roles, roleIds[j])
    {
      var role := FindRoleById(roles, roleIds[i]);
      if role.None? {
        assert FirstUnusableRole(caller, roles, roleIds, i);
        return Err(InvalidParameter);
      }
      if !CanAccess(caller, RoleSubject(roleIds[i])) {
        assert FirstUnusableRole(caller, roles, roleIds, i);
        return Err(PermissionDenied);
      }
      assert RoleUsable(caller, roles, roleIds[i]);
      var link := GroupRoleLink(groupId, roleIds[i]);
      InsertAbsentStep(grm, links, i);
      // findByGroupAndRole
      if link !in table {
        table := table + [link];
      }
    }
    assert links[..|roleIds|] == links;
    return Ok(table);
  }

  /**
   * The transaction of `removeAclRolesFromGroup`: as `LinkRoles`, but each
   * present (group, role) link is removed.
   */
  method UnlinkRoles(caller: Caller, roles: seq<Role>, grm: seq<GroupRoleLink>, groupId: int, roleIds: seq<int>)
    returns (r: Result<seq<GroupRoleLink>>)
    ensures r.Ok? <==> forall i :: 0 <= i < |roleIds| ==> RoleUsable(caller, roles, roleIds[i])
    ensures r.Err? ==> exists k :: FirstUnusableRole(caller, roles, roleIds, k) &&
                                   r.error == LookupError(FindRoleById(roles, roleIds[k]).Some?)
    ensures r.Ok? ==> r.value == RemoveRows(grm, RoleLinks(groupId, roleIds))
  {
    ghost var links := RoleLinks(groupId, roleIds);
    var table := grm;
    RemoveNoRows(grm, links[..0]);
    for i := 0 to |roleIds|
      invariant table == RemoveRows(grm, links[..i])
      invariant forall j :: 0 <= j < i ==> RoleUsable(caller, roles, roleIds[j])
    {
      var role := FindRoleById(roles, roleIds[i]);
      if role.None? {
        assert FirstUnusableRole(caller, roles, roleIds, i);
        return Err(InvalidParameter);
      }
      if !CanAccess(caller, RoleSubject(roleIds[i])) {
        assert FirstUnusableRole(caller, roles, roleIds, i);
        return Err(PermissionDenied);
      }
      assert RoleUsable(caller, roles, roleIds[i]);
      var link := GroupRoleLink(groupId, roleIds[i]);
      RemoveRowsStep(grm, links, i);
      // findByGroupAndRole
      if link in table {
        table := RemoveRow(table, link);
      } else {
        RemoveAbsentRow(table, link);
      }
    }
    assert links[..|roleIds|] == links;
    return Ok(table);
  }

  /**
   * The transaction of `addAccountsToGroup`, on a copy of
   * group_account_map: it succeeds exactly when every listed account is
   * usable, and then holds the table with each missing (group, account)
   * link inserted; otherwise it fails with the error of the first unusable
   * account.
   */
  method LinkAccounts(caller: Caller, accounts: set<int>, gam: seq<GroupAccountLink>, groupId: int, accountIds: seq<int>)
    returns (r: Result<seq<GroupAccountLink>>)
    ensures r.Ok? <==> forall i :: 0 <= i < |accountIds| ==> AccountUsable(caller, accounts, accountIds[i])
    ensures r.Err? ==> exists k :: FirstUnusableAccount(caller, accounts, accountIds, k) &&
                                   r.error == LookupError(accountIds[k] in accounts)
    ensures r.Ok? ==> r.value == InsertAbsent(gam, AccountLinks(groupId, accountIds))
  {
    ghost var links := AccountLinks(groupId, accountIds);
    var table := gam;
    InsertNoRows(gam, links[..0]);
    for i := 0 to |accountIds|
      invariant table == InsertAbsent(gam, links[..i])
      invariant forall j :: 0 <= j < i ==> AccountUsable(caller, accounts, accountIds[j])
    {
      if accountIds[i] !in accounts {
        assert FirstUnusableAccount(caller, accounts, accountIds, i);
        return Err(InvalidParameter);
      }
      if !CanAccess(caller, AccountSubject(accountIds[i])) {
        assert FirstUnusableAccount(caller, accounts, accountIds, i);
        return Err(PermissionDenied);
      }
      assert AccountUsable(caller, accounts, accountIds[i]);
      var link := GroupAccountLink(groupId, accountIds[i]);
      InsertAbsentStep(gam, links, i);
      // findByGroupAndAccount
      if link !in table {
        table := table + [link];
      }
    }
    assert links[..|accountIds|] == links;
    return Ok(table);
  }

  /**
   * The transaction of `removeAccountsFromGroup`: as `LinkAccounts`, but
   * each present (group, account) link is removed.
   */
  method UnlinkAccounts(caller: Caller, accounts: set<int>, gam: seq<GroupAccountLink>, groupId: int, accountIds: seq<int>)
    returns (r: Result<seq<GroupAccountLink>>)
    ensures r.Ok? <==> forall i :: 0 <= i < |accountIds| ==> AccountUsable(caller, accounts, accountIds[i])
    ensures r.Err? ==> exists k :: FirstUnusableAccount(caller, accounts, accountIds, k) &&
                                   r.error == LookupError(accountIds[k] in accounts)
    ensures r.Ok? ==> r.value == RemoveRows(gam, AccountLinks(groupId, accountIds))
  {
    ghost var links := AccountLinks(groupId, accountIds);
    var table := gam;
    RemoveNoRows(gam, links[..0]);
    for i := 0 to |accountIds|
      invariant table == RemoveRows(gam, links[..i])
      invariant forall j :: 0 <= j < i ==> AccountUsable(caller, accounts, accountIds[j])
    {
      if accountIds[i] !in accounts {
        assert FirstUnusableAccount(caller, accounts, accountIds, i);
        return Err(InvalidParameter);
      }
      if !CanAccess(caller, AccountSubject(accountIds[i])) {
        assert FirstUnusableAccount(caller, accounts, accountIds, i);
        return Err(PermissionDenied);
      }
      assert AccountUsable(caller, accounts, accountIds[i]);
      var link := GroupAccountLink(groupId, accountIds[i]);
      RemoveRowsStep(gam, links, i);
      // findByGroupAndAccount
      if link in table {
        table := RemoveRow(table, link);
      } else {
        RemoveAbsentRow(table, link);
      }
    }
    assert links[..|accountIds|] == links;
    return Ok(table);
  }

  class AclService {
    var roles: seq<Role>
    var groups: seq<Group>
    var groupRoleMap: seq<GroupRoleLink>
    var groupAccountMap: seq<GroupAccountLink>
    var apiPermissions: seq<ApiPermission>
    var policyPermissions: seq<PolicyPermission>
    var entityPermissions: seq<EntityPermission>
    /** Ids the role and group tables hand out next. */
    var nextRoleId: int
    var nextGroupId: int

    /**
     * The table keys hold, and the cascading deletes leave no link or API
     * grant pointing at a missing role or group. Policy and entity rows may
     * outlive their role or group, but never carry an id handed out later.
     */
    ghost predicate Valid()
      reads this
    {
      TablesValid(roles, groups, groupRoleMap, groupAccountMap, apiPermissions, policyPermissions,
                  entityPermissions, nextRoleId, nextGroupId)
    }

    constructor ()
      ensures Valid()
      ensures roles == [] && groups == [] && groupRoleMap == [] && groupAccountMap == []
      ensures apiPermissions == [] && policyPermissions == [] && entityPermissions == []
      ensures nextRoleId == 1 && nextGroupId == 1
    {
      roles, groups, groupRoleMap, groupAccountMap := [], [], [], [];
      apiPermissions, policyPermissions, entityPermissions := [], [], [];
      nextRoleId, nextGroupId := 1, 1;
    }

    // ------------------------------------------------------------- roles

    /**
     * `createAclRole`: a caller that is not root admin may only create in its
     * own domain; the name must be new in the domain; the role gets a fresh
     * id and, with a parent, a copy of every policy row of the parent.
     */
    method CreateAclRole(caller: Caller, domainId: Option<int>, name: string, description: string,
                         parentRoleId: Option<int>) returns (r: Result<Role>)
      requires Valid()
      modifies this`roles, this`policyPermissions, this`nextRoleId
      ensures Valid()
      ensures !MayCreateIn(caller, TargetDomain(caller, domainId)) ==> r == Err(PermissionDenied)
      ensures (MayCreateIn(caller, TargetDomain(caller, domainId)) &&
               FindRoleByName(old(roles), TargetDomain(caller, domainId), name).Some?) ==> r == Err(InvalidParameter)
      ensures (MayCreateIn(caller, TargetDomain(caller, domainId)) &&
               FindRoleByName(old(roles), TargetDomain(caller, domainId), name).None?) ==>
                r == Ok(Role(old(nextRoleId), name, TargetDomain(caller, domainId), description))
      ensures r.Err? ==> roles == old(roles) && policyPermissions == old(policyPermissions) && nextRoleId == old(nextRoleId)
      ensures r.Ok? ==> forall x :: x in old(roles) ==> x.id != r.value.id
      ensures r.Ok? ==> roles == old(roles) + [r.value] && nextRoleId == old(nextRoleId) + 1
      ensures r.Ok? ==> policyPermissions == old(policyPermissions) + InheritedRows(old(policyPermissions), parentRoleId, r.value.id)
    {
      var d := TargetDomain(caller, domainId);
      if !caller.rootAdmin {
        if caller.domainId != d {
          return Err(PermissionDenied);
        }
      }
      if FindRoleByName(roles, d, name).Some? {
        return Err(InvalidParameter);
      }
      RoleCreatedValid(roles, groups, groupRoleMap, groupAccountMap, apiPermissions, policyPermissions, entityPermissions,
                       nextRoleId, nextGroupId, Role(nextRoleId, name, d, description), parentRoleId);
      var role := InsertRoleRows(name, d, description, parentRoleId);
      return Ok(role);
    }

    /**
     * The transaction of `createAclRole`: the role row under the next id,
     * then the copy of the parent's policy rows.
     */
    method InsertRoleRows(name: string, domainId: int, description: string, parentRoleId: Option<int>)
      returns (role: Role)
      modifies this`roles, this`policyPermissions, this`nextRoleId
      ensures role == Role(old(nextRoleId), name, domainId, description)
      ensures roles == old(roles) + [role] && nextRoleId == old(nextRoleId) + 1
      ensures policyPermissions == old(policyPermissions) + InheritedRows(old(policyPermissions), parentRoleId, role.id)
    {
      role := Role(nextRoleId, name, domainId, description);
      roles := roles + [role];
      nextRoleId := nextRoleId + 1;
      if parentRoleId.Some? {
        CopyParentPermissions(parentRoleId.value, role.id);
      }
    }

    /** The copy loop of `createAclRole`: each policy row of the parent, re-assigned to the new role. */
    method CopyParentPermissions(parentRoleId: int, roleId: int)
      modifies this`policyPermissions
      ensures policyPermissions == old(policyPermissions) + CopyToRole(PolicyRowsOf(old(policyPermissions), parentRoleId), roleId)
    {
      var perms := PolicyRowsOf(policyPermissions, parentRoleId);
      for i := 0 to |perms|
        invariant policyPermissions == old(policyPermissions) + CopyToRole(perms[..i], roleId)
      {
        assert CopyToRole(perms[..i + 1], roleId) == CopyToRole(perms[..i], roleId) + [perms[i].(roleId := roleId)];
        policyPermissions := policyPermissions + [perms[i].(roleId := roleId)];
      }
      assert perms[..|perms|] == perms;
    }

    /**
     * `deleteAclRole`: after the lookup and access check, the role's group
     * links, its API grants and the role row are removed together.
     */
    method DeleteAclRole(caller: Caller, roleId: int) returns (r: Result<bool>)
      requires Valid()
      modifies this`roles, this`groupRoleMap, this`apiPermissions
      ensures Valid()
      ensures !RoleUsable(caller, old(roles), roleId) ==>
                r == Err(LookupError(FindRoleById(old(roles), roleId).Some?))
      ensures RoleUsable(caller, old(roles), roleId) ==> r == Ok(true)
      ensures r.Err? ==> roles == old(roles) && groupRoleMap == old(groupRoleMap) && apiPermissions == old(apiPermissions)
      ensures r.Ok? ==> roles == RolesWithout(old(roles), roleId)
      ensures r.Ok? ==> groupRoleMap == RoleLinksWithoutRole(old(groupRoleMap), roleId)
      ensures r.Ok? ==> apiPermissions == ApisWithoutRole(old(apiPermissions), roleId)
    {
      if FindRoleById(roles, roleId).None? {
        return Err(InvalidParameter);
      }
      if !CanAccess(caller, RoleSubject(roleId)) {
        return Err(PermissionDenied);
      }
      RoleDeletedValid(roles, groups, groupRoleMap, groupAccountMap, apiPermissions, policyPermissions, entityPermissions,
                       nextRoleId, nextGroupId, roleId);
      RemoveRoleRows(roleId);
      return Ok(true);
    }

    /** The transaction of `deleteAclRole`: the role's group links, its API grants, then the role row. */
    method RemoveRoleRows(roleId: int)
      modifies this`roles, this`groupRoleMap, this`apiPermissions
      ensures roles == RolesWithout(old(roles), roleId)
      ensures groupRoleMap == RoleLinksWithoutRole(old(groupRoleMap), roleId)
      ensures apiPermissions == ApisWithoutRole(old(apiPermissions), roleId)
    {
      RemoveRoleLinkRows(RoleLinksOfRole(groupRoleMap, roleId));
      CascadeRoleLinks(old(groupRoleMap), roleId);
      RemoveApiRows(ApisOfRole(apiPermissions, roleId));
      CascadeApis(old(apiPermissions), roleId);
      roles := RolesWithout(roles, roleId);
    }

    /**
     * `grantApiPermissionToAclRole`: for each API name, in list order, the
     * (role, api) row is added unless it is already there.
     */
    method GrantApiPermissionToAclRole(caller: Caller, roleId: int, apiNames: seq<string>) returns (r: Result<Role>)
      requires Valid()
      modifies this`apiPermissions
      ensures Valid()
      ensures !RoleUsable(caller, roles, roleId) ==> r == Err(LookupError(FindRoleById(roles, roleId).Some?))
      ensures RoleUsable(caller, roles, roleId) ==> r == Ok(FindRoleById(roles, roleId).value)
      ensures r.Err? ==> apiPermissions == old(apiPermissions)
      ensures r.Ok? ==> apiPermissions == InsertAbsent(old(apiPermissions), ApiRows(roleId, apiNames))
    {
      var role := FindRoleById(roles, roleId);
      if role.None? {
        return Err(InvalidParameter);
      }
      if !CanAccess(caller, RoleSubject(roleId)) {
        return Err(PermissionDenied);
      }
      ApisGrantedValid(roles, groups, groupRoleMap, groupAccountMap, apiPermissions, policyPermissions, entityPermissions, nextRoleId, nextGroupId, roleId, apiNames);
      ghost var ap0 := apiPermissions;
      ghost var rows := ApiRows(roleId, apiNames);
      InsertNoRows(ap0, rows[..0]);
      for i := 0 to |apiNames|
        invariant apiPermissions == InsertAbsent(ap0, rows[..i])
      {
        var perm := ApiPermission(roleId, apiNames[i]);
        InsertAbsentStep(ap0, rows, i);
        // findByRoleAndApi
        if perm !in apiPermissions {
          apiPermissions := apiPermissions + [perm];
        }
      }
      assert rows[..|apiNames|] == rows;
      return Ok(role.value);
    }

    /**
     * `revokeApiPermissionFromAclRole`: for each API name the (role, api)
     * row is removed when present.
     */
    method RevokeApiPermissionFromAclRole(caller: Caller, roleId: int, apiNames: seq<string>) returns (r: Result<Role>)
      requires Valid()
      modifies this`apiPermissions
      ensures Valid()
      ensures !RoleUsable(caller, roles, roleId) ==> r == Err(LookupError(FindRoleById(roles, roleId).Some?))
      ensures RoleUsable(caller, roles, roleId) ==> r == Ok(FindRoleById(roles, roleId).value)
      ensures r.Err? ==> apiPermissions == old(apiPermissions)
      ensures r.Ok? ==> apiPermissions == RemoveRows(old(apiPermissions), ApiRows(roleId, apiNames))
    {
      var role := FindRoleById(roles, roleId);
      if role.None? {
        return Err(InvalidParameter);
      }
      if !CanAccess(caller, RoleSubject(roleId)) {
        return Err(PermissionDenied);
      }
      ApisRevokedValid(roles, groups, groupRoleMap, groupAccountMap, apiPermissions, policyPermissions, entityPermissions, nextRoleId, nextGroupId, roleId, apiNames);
      ghost var ap0 := apiPermissions;
      ghost var rows := ApiRows(roleId, apiNames);
      RemoveNoRows(ap0, rows[..0]);
      for i := 0 to |apiNames|
        invariant apiPermissions == RemoveRows(ap0, rows[..i])
      {
        var perm := ApiPermission(roleId, apiNames[i]);
        RemoveRowsStep(ap0, rows, i);
        if perm in apiPermissions {
          apiPermissions := RemoveRow(apiPermissions, perm);
        } else {
          RemoveAbsentRow(apiPermissions, perm);
        }
      }
      assert rows[..|apiNames|] == rows;
      return Ok(role.value);
    }

    // ------------------------------------------------ entity permissions

    /**
     * `grantEntityPermissionToAclGroup`: after the group, entity type and
     * entity checks, an allow row is added for the (group, entity, access)
     * key unless a row of that key exists already.
     */
    method GrantEntityPermissionToAclGroup(caller: Caller, entities: map<(string, int), Entity>, groupId: int,
                                           entityType: string, entityId: int, accessType: AccessType)
      returns (r: Result<Group>)
      requires Valid()
      modifies this`entityPermissions
      ensures Valid()
      ensures !GroupUsable(caller, groups, groupId) ==> r == Err(LookupError(FindGroupById(groups, groupId).Some?))
      ensures GroupUsable(caller, groups, groupId) && !EntityUsable(caller, entities, entityType, entityId) ==>
                r == Err(LookupError(entityType in EntityClassMap && (entityType, entityId) in entities))
      ensures GroupUsable(caller, groups, groupId) && EntityUsable(caller, entities, entityType, entityId) ==>
                && r == Ok(FindGroupById(groups, groupId).value)
                && entityPermissions == GrantEntity(old(entityPermissions), groupId, entityType, entityId,
                                                    EntityUuid(entities[(entityType, entityId)], entityId), accessType)
      ensures r.Err? ==> entityPermissions == old(entityPermissions)
    {
      var group := FindGroupById(groups, groupId);
      if group.None? {
        return Err(InvalidParameter);
      }
      if !CanAccess(caller, GroupSubject(groupId)) {
        return Err(PermissionDenied);
      }
      if entityType !in EntityClassMap {
        return Err(InvalidParameter);
      }
      if (entityType, entityId) !in entities {
        return Err(InvalidParameter);
      }
      var entity := entities[(entityType, entityId)];
      if !CanAccess(caller, EntitySubject(entityType, entityId)) {
        return Err(PermissionDenied);
      }
      var perm := FindEntityPermission(entityPermissions, groupId, entityType, entityId, accessType);
      if perm.None? {
        var uuid := EntityUuid(entity, entityId);
        GrantEntityOneRow(entityPermissions, groupId, entityType, entityId, uuid, accessType);
        EntityGrantedValid(roles, groups, groupRoleMap, groupAccountMap, apiPermissions, policyPermissions, entityPermissions, nextRoleId, nextGroupId, groupId, entityType, entityId, uuid, accessType);
        entityPermissions := entityPermissions + [EntityPermission(groupId, entityType, entityId, uuid, accessType, true)];
      }
      return Ok(group.value);
    }

    /**
     * `revokeEntityPermissionFromAclGroup`: after the same checks, the row of
     * the (group, entity, access) key is removed, whatever its allow flag.
     */
    method RevokeEntityPermissionFromAclGroup(caller: Caller, entities: map<(string, int), Entity>, groupId: int,
                                              entityType: string, entityId: int, accessType: AccessType)
      returns (r: Result<Group>)
      requires Valid()
      modifies this`entityPermissions
      ensures Valid()
      ensures !GroupUsable(caller, groups, groupId) ==> r == Err(LookupError(FindGroupById(groups, groupId).Some?))
      ensures GroupUsable(caller, groups, groupId) && !EntityUsable(caller, entities, entityType, entityId) ==>
                r == Err(LookupError(entityType in EntityClassMap && (entityType, entityId) in entities))
      ensures GroupUsable(caller, groups, groupId) && EntityUsable(caller, entities, entityType, entityId) ==>
                && r == Ok(FindGroupById(groups, groupId).value)
                && entityPermissions == RevokeEntity(old(entityPermissions), groupId, entityType, entityId, accessType)
      ensures r.Err? ==> entityPermissions == old(entityPermissions)
    {
      var group := FindGroupById(groups, groupId);
      if group.None? {
        return Err(InvalidParameter);
      }
      if !CanAccess(caller, GroupSubject(groupId)) {
        return Err(PermissionDenied);
      }
      if entityType !in EntityClassMap {
        return Err(InvalidParameter);
      }
      if (entityType, entityId) !in entities {
        return Err(InvalidParameter);
      }
      if !CanAccess(caller, EntitySubject(entityType, entityId)) {
        return Err(PermissionDenied);
      }
      EntityRevokedValid(roles, groups, groupRoleMap, groupAccountMap, apiPermissions, policyPermissions, entityPermissions, nextRoleId, nextGroupId, groupId, entityType, entityId, accessType);
      var perm := FindEntityPermission(entityPermissions, groupId, entityType, entityId, accessType);
      if perm.Some? {
        entityPermissions := RemoveRow(entityPermissions, perm.value);
      }
      return Ok(group.value);
    }

    // ------------------------------------------------------- group links

    /**
     * `addAclRolesToGroup`: in list order, each role must exist and pass the
     * access check, and its link is added unless present. The first role
     * that fails aborts the whole transaction.
     */
    method AddAclRolesToGroup(caller: Caller, roleIds: seq<int>, groupId: int) returns (r: Result<Group>)
      requires Valid()
      modifies this`groupRoleMap
      ensures Valid()
      ensures !GroupUsable(caller, groups, groupId) ==> r == Err(LookupError(FindGroupById(groups, groupId).Some?))
      ensures GroupUsable(caller, groups, groupId) ==>
                (r.Ok? <==> forall i :: 0 <= i < |roleIds| ==> RoleUsable(caller, roles, roleIds[i]))
      ensures GroupUsable(caller, groups, groupId) && r.Err? ==>
                exists k :: FirstUnusableRole(caller, roles, roleIds, k) &&
                            r.error == LookupError(FindRoleById(roles, roleIds[k]).Some?)
      ensures r.Err? ==> groupRoleMap == old(groupRoleMap)
      ensures r.Ok? ==> r.value == FindGroupById(groups, groupId).value
      ensures r.Ok? ==> groupRoleMap == InsertAbsent(old(groupRoleMap), RoleLinks(groupId, roleIds))
    {
      var group := FindGroupById(groups, groupId);
      if group.None? {
        return Err(InvalidParameter);
      }
      if !CanAccess(caller, GroupSubject(groupId)) {
        return Err(PermissionDenied);
      }
      var tx := LinkRoles(caller, roles, groupRoleMap, groupId, roleIds);
      if tx.Err? {
        return Err(tx.error);
      }
      forall i | 0 <= i < |roleIds| ensures HasRole(roles, roleIds[i]) {
        assert FindRoleById(roles, roleIds[i]).value in roles;
      }
      assert group.value in groups;
      RoleLinksAddedValid(roles, groups, groupRoleMap, groupAccountMap, apiPermissions, policyPermissions,
                          entityPermissions, nextRoleId, nextGroupId, groupId, roleIds);
      groupRoleMap := tx.value;
      return Ok(group.value);
    }

    /**
     * `removeAclRolesFromGroup`: as adding, but each present link is
     * removed; the first role that fails aborts the whole transaction.
     */
    method RemoveAclRolesFromGroup(caller: Caller, roleIds: seq<int>, groupId: int) returns (r: Result<Group>)
      requires Valid()
      modifies this`groupRoleMap
      ensures Valid()
      ensures !GroupUsable(caller, groups, groupId) ==> r == Err(LookupError(FindGroupById(groups, groupId).Some?))
      ensures GroupUsable(caller, groups, groupId) ==>
                (r.Ok? <==> forall i :: 0 <= i < |roleIds| ==> RoleUsable(caller, roles, roleIds[i]))
      ensures GroupUsable(caller, groups, groupId) && r.Err? ==>
                exists k :: FirstUnusableRole(caller, roles, roleIds, k) &&
                            r.error == LookupError(FindRoleById(roles, roleIds[k]).Some?)
      ensures r.Err? ==> groupRoleMap == old(groupRoleMap)
      ensures r.Ok? ==> r.value == FindGroupById(groups, groupId).value
      ensures r.Ok? ==> groupRoleMap == RemoveRows(old(groupRoleMap), RoleLinks(groupId, roleIds))
    {
      var group := FindGroupById(groups, groupId);
      if group.None? {
        return Err(InvalidParameter);
      }
      if !CanAccess(caller, GroupSubject(groupId)) {
        return Err(PermissionDenied);
      }
      var tx := UnlinkRoles(caller, roles, groupRoleMap, groupId, roleIds);
      if tx.Err? {
        return Err(tx.error);
      }
      RoleLinksRemovedValid(roles, groups, groupRoleMap, groupAccountMap, apiPermissions, policyPermissions,
                            entityPermissions, nextRoleId, nextGroupId, groupId, roleIds);
      groupRoleMap := tx.value;
      return Ok(group.value);
    }

    /**
     * `addAccountsToGroup`: in list order, each account must exist and pass
     * the access check, and its link is added unless present.
     */
    method AddAccountsToGroup(caller: Caller, accounts: set<int>, accountIds: seq<int>, groupId: int)
      returns (r: Result<Group>)
      requires Valid()
      modifies this`groupAccountMap
      ensures Valid()
      ensures !GroupUsable(caller, groups, groupId) ==> r == Err(LookupError(FindGroupById(groups, groupId).Some?))
      ensures GroupUsable(caller, groups, groupId) ==>
                (r.Ok? <==> forall i :: 0 <= i < |accountIds| ==> AccountUsable(caller, accounts, accountIds[i]))
      ensures GroupUsable(caller, groups, groupId) && r.Err? ==>
                exists k :: FirstUnusableAccount(caller, accounts, accountIds, k) &&
                            r.error == LookupError(accountIds[k] in accounts)
      ensures r.Err? ==> groupAccountMap == old(groupAccountMap)
      ensures r.Ok? ==> r.value == FindGroupById(groups, groupId).value
      ensures r.Ok? ==> groupAccountMap == InsertAbsent(old(groupAccountMap), AccountLinks(groupId, accountIds))
    {
      var group := FindGroupById(groups, groupId);
      if group.None? {
        return Err(InvalidParameter);
      }
      if !CanAccess(caller, GroupSubject(groupId)) {
        return Err(PermissionDenied);
      }
      var tx := LinkAccounts(caller, accounts, groupAccountMap, groupId, accountIds);
      if tx.Err? {
        return Err(tx.error);
      }
      assert group.value in groups;
      AccountLinksAddedValid(roles, groups, groupRoleMap, groupAccountMap, apiPermissions, policyPermissions,
                             entityPermissions, nextRoleId, nextGroupId, groupId, accountIds);
      groupAccountMap := tx.value;
      return Ok(group.value);
    }

    /**
     * `removeAccountsFromGroup`: as adding, but each present link is removed.
     */
    method RemoveAccountsFromGroup(caller: Caller, accounts: set<int>, accountIds: seq<int>, groupId: int)
      returns (r: Result<Group>)
      requires Valid()
      modifies this`groupAccountMap
      ensures Valid()
      ensures !GroupUsable(caller, groups, groupId) ==> r == Err(LookupError(FindGroupById(groups, groupId).Some?))
      ensures GroupUsable(caller, groups, groupId) ==>
                (r.Ok? <==> forall i :: 0 <= i < |accountIds| ==> AccountUsable(caller, accounts, accountIds[i]))
      ensures GroupUsable(caller, groups, groupId) && r.Err? ==>
                exists k :: FirstUnusableAccount(caller, accounts, accountIds, k) &&
                            r.error == LookupError(accountIds[k] in accounts)
      ensures r.Err? ==> groupAccountMap == old(groupAccountMap)
      ensures r.Ok? ==> r.value == FindGroupById(groups, groupId).value
      ensures r.Ok? ==> groupAccountMap == RemoveRows(old(groupAccountMap), AccountLinks(groupId, accountIds))
    {
      var group := FindGroupById(groups, groupId);
      if group.None? {
        return Err(InvalidParameter);
      }
      if !CanAccess(caller, GroupSubject(groupId)) {
        return Err(PermissionDenied);
      }
      var tx := UnlinkAccounts(caller, accounts, groupAccountMap, groupId, accountIds);
      if tx.Err? {
        return Err(tx.error);
      }
      AccountLinksRemovedValid(roles, groups, groupRoleMap, groupAccountMap, apiPermissions, policyPermissions,
                               entityPermissions, nextRoleId, nextGroupId, groupId, accountIds);
      groupAccountMap := tx.value;
      return Ok(group.value);
    }

    // ------------------------------------------------------------ groups

    /**
     * `createAclGroup`: the same domain and name checks as role creation; the
     * group gets a fresh id.
     */
    method CreateAclGroup(caller: Caller, domainId: Option<int>, name: string, description: string)
      returns (r: Result<Group>)
      requires Valid()
      modifies this`groups, this`nextGroupId
      ensures Valid()
      ensures !MayCreateIn(caller, TargetDomain(caller, domainId)) ==> r == Err(PermissionDenied)
      ensures (MayCreateIn(caller, TargetDomain(caller, domainId)) &&
               FindGroupByName(old(groups), TargetDomain(caller, domainId), name).Some?) ==> r == Err(InvalidParameter)
      ensures (MayCreateIn(caller, TargetDomain(caller, domainId)) &&
               FindGroupByName(old(groups), TargetDomain(caller, domainId), name).None?) ==>
                r == Ok(Group(old(nextGroupId), name, TargetDomain(caller, domainId), description))
      ensures r.Err? ==> groups == old(groups) && nextGroupId == old(nextGroupId)
      ensures r.Ok? ==> forall x :: x in old(groups) ==> x.id != r.value.id
      ensures r.Ok? ==> groups == old(groups) + [r.value] && nextGroupId == old(nextGroupId) + 1
    {
      var d := TargetDomain(caller, domainId);
      if !caller.rootAdmin {
        if caller.domainId != d {
          return Err(PermissionDenied);
        }
      }
      if FindGroupByName(groups, d, name).Some? {
        return Err(InvalidParameter);
      }
      var group := Group(nextGroupId, name, d, description);
      GroupCreatedValid(roles, groups, groupRoleMap, groupAccountMap, apiPermissions, policyPermissions, entityPermissions, nextRoleId, nextGroupId, group);
      groups := groups + [group];
      nextGroupId := nextGroupId + 1;
      return Ok(group);
    }

    /**
     * `deleteAclGroup`: after the lookup and access check, the group's role
     * links, its account links and the group row are removed together.
     */
    method DeleteAclGroup(caller: Caller, groupId: int) returns (r: Result<bool>)
      requires Valid()
      modifies this`groups, this`groupRoleMap, this`groupAccountMap
      ensures Valid()
      ensures !GroupUsable(caller, old(groups), groupId) ==>
                r == Err(LookupError(FindGroupById(old(groups), groupId).Some?))
      ensures GroupUsable(caller, old(groups), groupId) ==> r == Ok(true)
      ensures r.Err? ==> groups == old(groups) && groupRoleMap == old(groupRoleMap) && groupAccountMap == old(groupAccountMap)
      ensures r.Ok? ==> groups == GroupsWithout(old(groups), groupId)
      ensures r.Ok? ==> groupRoleMap == RoleLinksWithoutGroup(old(groupRoleMap), groupId)
      ensures r.Ok? ==> groupAccountMap == AccountLinksWithoutGroup(old(groupAccountMap), groupId)
    {
      if FindGroupById(groups, groupId).None? {
        return Err(InvalidParameter);
      }
      if !CanAccess(caller, GroupSubject(groupId)) {
        return Err(PermissionDenied);
      }
      GroupDeletedValid(roles, groups, groupRoleMap, groupAccountMap, apiPermissions, policyPermissions, entityPermissions,
                        nextRoleId, nextGroupId, groupId);
      RemoveGroupRows(groupId);
      return Ok(true);
    }

    /** The transaction of `deleteAclGroup`: the group's role links, its account links, then the group row. */
    method RemoveGroupRows(groupId: int)
      modifies this`groups, this`groupRoleMap, this`groupAccountMap
      ensures groups == GroupsWithout(old(groups), groupId)
      ensures groupRoleMap == RoleLinksWithoutGroup(old(groupRoleMap), groupId)
      ensures groupAccountMap == AccountLinksWithoutGroup(old(groupAccountMap), groupId)
    {
      RemoveRoleLinkRows(RoleLinksOfGroup(groupRoleMap, groupId));
      CascadeGroupRoleLinks(old(groupRoleMap), groupId);
      RemoveAccountLinkRows(AccountLinksOfGroup(groupAccountMap, groupId));
      CascadeGroupAccountLinks(old(groupAccountMap), groupId);
      groups := GroupsWithout(groups, groupId);
    }

    // ------------------------------------------------- cascade removals

    /** The removal loop of a cascade: each listed group_role_map row is removed by its id. */
    method RemoveRoleLinkRows(links: seq<GroupRoleLink>)
      modifies this`groupRoleMap
      ensures groupRoleMap == RemoveRows(old(groupRoleMap), links)
    {
      RemoveNoRows(groupRoleMap, links[..0]);
      for i := 0 to |links|
        invariant groupRoleMap == RemoveRows(old(groupRoleMap), links[..i])
      {
        RemoveRowsStep(old(groupRoleMap), links, i);
        groupRoleMap := RemoveRow(groupRoleMap, links[i]);
      }
      assert links[..|links|] == links;
    }

    /** The removal loop of a cascade: each listed group_account_map row is removed by its id. */
    method RemoveAccountLinkRows(links: seq<GroupAccountLink>)
      modifies this`groupAccountMap
      ensures groupAccountMap == RemoveRows(old(groupAccountMap), links)
    {
      RemoveNoRows(groupAccountMap, links[..0]);
      for i := 0 to |links|
        invariant groupAccountMap == RemoveRows(old(groupAccountMap), links[..i])
      {
        RemoveRowsStep(old(groupAccountMap), links, i);
        groupAccountMap := RemoveRow(groupAccountMap, links[i]);
      }
      assert links[..|links|] == links;
    }

    /** The removal loop of a cascade: each listed api_permission row is removed by its id. */
    method RemoveApiRows(rows: seq<ApiPermission>)
      modifies this`apiPermissions
      ensures apiPermissions == RemoveRows(old(apiPermissions), rows)
    {
      RemoveNoRows(apiPermissions, rows[..0]);
      for i := 0 to |rows|
        invariant apiPermissions == RemoveRows(old(apiPermissions), rows[..i])
      {
        RemoveRowsStep(old(apiPermissions), rows, i);
        apiPermissions := RemoveRow(apiPermissions, rows[i]);
      }
      assert rows[..|rows|] == rows;
    }

    // ----------------------------------------------------------- queries

    /**
     * `getAclRolePermission`: over the account's static roles, the allow row
     * of each role for the entity and access type; the first row found is
     * kept and replaced only by a row of strictly broader scope.
     */
    method GetAclRolePermission(accountId: int, entityType: string, accessType: AccessType)
      returns (r: Option<PolicyPermission>)
      ensures var ms := RoleMatches(policyPermissions, StaticRoles(roles, groupRoleMap, groupAccountMap, accountId),
                                    entityType, accessType);
              && (r.None? <==> ms == [])
              && (r.Some? ==> exists k :: IsBroadest(ms, k) && ms[k] == r.value)
    {
      var rs := StaticRoles(roles, groupRoleMap, groupAccountMap, accountId);
      r := None;
      ghost var k := 0;
      for i := 0 to |rs|
        invariant var ms := RoleMatches(policyPermissions, rs[..i], entityType, accessType);
                  && (r.None? <==> ms == [])
                  && (r.Some? ==> IsBroadest(ms, k) && ms[k] == r.value)
      {
        ghost var ms := RoleMatches(policyPermissions, rs[..i], entityType, accessType);
        RoleMatchesSnoc(policyPermissions, rs, i, entityType, accessType);
        var perm := FindPolicyPermission(policyPermissions, rs[i].id, entityType, accessType);
        if perm.Some? {
          if r.None? {
            BroadestFirst(perm.value);
            r, k := perm, 0;
          } else {
            BroadestStep(ms, k, perm.value);
            if GreaterThan(perm.value.scope, r.value.scope) {
              r, k := perm, |ms|;
            }
          }
        }
      }
      assert rs[..|rs|] == rs;
    }

    /**
     * `getAclEntityPermission`: the ids the account's groups allow and the
     * ids they deny for the entity and access type, collected group by
     * group; the two sets are not reconciled.
     */
    method GetAclEntityPermission(accountId: int, entityType: string, accessType: AccessType)
      returns (allowed: set<int>, denied: set<int>)
      ensures allowed == AllowedIds(entityPermissions, groups, groupAccountMap, accountId, entityType, accessType)
      ensures denied == DeniedIds(entityPermissions, groups, groupAccountMap, accountId, entityType, accessType)
    {
      var gs := AccountGroups(groups, groupAccountMap, accountId);
      if |gs| == 0 {
        return {}, {};
      }
      allowed, denied := {}, {};
      for i := 0 to |gs|
        invariant allowed == EntityIds(entityPermissions, GroupIds(gs[..i]), entityType, accessType, true)
        invariant denied == EntityIds(entityPermissions, GroupIds(gs[..i]), entityType, accessType, false)
      {
        EntityIdsSnoc(entityPermissions, gs, i, entityType, accessType, true);
        EntityIdsSnoc(entityPermissions, gs, i, entityType, accessType, false);
        // findEntityIdByGroupAndPermission, once with allow and once with deny
        allowed := allowed + EntityIds(entityPermissions, {gs[i].id}, entityType, accessType, true);
        denied := denied + EntityIds(entityPermissions, {gs[i].id}, entityType, accessType, false);
      }
      assert gs[..|gs|] == gs;
    }

    /**
     * `isAPIAccessibleForRoles`: the ids of the roles are collected, and the
     * API is accessible when some api_permission row names it and one of them.
     */
    method IsApiAccessibleForRoles(apiName: string, rs: seq<Role>) returns (accessible: bool)
      ensures accessible <==> ApiAccessible(apiPermissions, apiName, rs)
    {
      var roleIds: seq<int> := [];
      for i := 0 to |rs|
        invariant |roleIds| == i
        invariant forall j :: 0 <= j < i ==> roleIds[j] == rs[j].id
      {
        roleIds := roleIds + [rs[i].id];
      }
      var permissions := Keep(apiPermissions, (p: ApiPermission) => p.apiName == apiName && p.roleId in roleIds);
      accessible := permissions != [];
      if accessible {
        var p := permissions[0];
        assert p in permissions;
        var i :| 0 <= i < |apiPermissions| && apiPermissions[i] == p;
        var j :| 0 <= j < |roleIds| && roleIds[j] == p.roleId;
        assert apiPermissions[i].roleId == rs[j].id;
      } else {
        forall i, j | 0 <= i < |apiPermissions| && 0 <= j < |rs|
          ensures !(apiPermissions[i].apiName == apiName && apiPermissions[i].roleId == rs[j].id)
        {
          assert apiPermissions[i] in apiPermissions && roleIds[j] == rs[j].id;
        }
      }
    }
  }
}
