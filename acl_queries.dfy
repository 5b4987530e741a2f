/**
 * The resolution queries of the ACL service, as functions of the table
 * contents: point lookups of the DAOs, the account -> group -> role join,
 * the API existence test, the effective roles with the dynamic owner role,
 * and the specifications that the two accumulating queries (best policy
 * permission, allowed/denied entity ids) are proved against.
 */
module AclQueries {

  import opened Rows
  import opened AclTypes

  // ------------------------------------------------------------ lookups

  /** The role with this id (role DAO `findById`). */
  function FindRoleById(roles: seq<Role>, id: int): (r: Option<Role>)
    ensures r.Some? ==> r.value in roles && r.value.id == id
    ensures r.None? <==> forall x :: x in roles ==> x.id != id
  {
    FindFirst(roles, (x: Role) => x.id == id)
  }

  /** The group with this id (group DAO `findById`). */
  function FindGroupById(groups: seq<Group>, id: int): (r: Option<Group>)
    ensures r.Some? ==> r.value in groups && r.value.id == id
    ensures r.None? <==> forall x :: x in groups ==> x.id != id
  {
    FindFirst(groups, (x: Group) => x.id == id)
  }

  /** The role of this name in this domain (role DAO `findByName`). */
  function FindRoleByName(roles: seq<Role>, domainId: int, name: string): (r: Option<Role>)
    ensures r.Some? ==> r.value in roles && r.value.domainId == domainId && r.value.name == name
    ensures r.None? <==> forall x :: x in roles ==> !(x.domainId == domainId && x.name == name)
  {
    FindFirst(roles, (x: Role) => x.domainId == domainId && x.name == name)
  }

  /** The group of this name in this domain (group DAO `findByName`). */
  function FindGroupByName(groups: seq<Group>, domainId: int, name: string): (r: Option<Group>)
    ensures r.Some? ==> r.value in groups && r.value.domainId == domainId && r.value.name == name
    ensures r.None? <==> forall x :: x in groups ==> !(x.domainId == domainId && x.name == name)
  {
    FindFirst(groups, (x: Group) => x.domainId == domainId && x.name == name)
  }

  // ------------------------------------------------- roles and groups

  /** Account `accountId` is in some group that holds role `roleId`. */
  ghost predicate Reaches(grm: seq<GroupRoleLink>, gam: seq<GroupAccountLink>, accountId: int, roleId: int) {
    exists l :: l in gam && l.accountId == accountId && GroupRoleLink(l.groupId, roleId) in grm
  }

  /**
   * The static roles of an account (`getAclRoles`): the role rows whose id
   * the join group_account_map -> group_role_map reaches from the account.
   * Each role row is taken once, however many groups lead to it.
   */
  function StaticRoles(roles: seq<Role>, grm: seq<GroupRoleLink>, gam: seq<GroupAccountLink>, accountId: int): (r: seq<Role>)
    ensures forall x :: x in r <==> x in roles && Reaches(grm, gam, accountId, x.id)
    ensures NoDup(roles) ==> NoDup(r)
  {
    Keep(roles, (x: Role) =>
      exists i :: 0 <= i < |gam| && gam[i].accountId == accountId && GroupRoleLink(gam[i].groupId, x.id) in grm)
  }

  /** A role reachable through several groups still occurs exactly once among the static roles. */
  lemma StaticRolesOnce(roles: seq<Role>, grm: seq<GroupRoleLink>, gam: seq<GroupAccountLink>, accountId: int, role: Role)
    requires NoDup(roles) && role in roles
    ensures Occurrences(StaticRoles(roles, grm, gam, accountId), role) ==
            if Reaches(grm, gam, accountId, role.id) then 1 else 0
  {
    NoDupOccurrences(StaticRoles(roles, grm, gam, accountId), role);
  }

  /** The groups of an account (`getAclGroups`): the group rows linked to it. */
  function AccountGroups(groups: seq<Group>, gam: seq<GroupAccountLink>, accountId: int): (r: seq<Group>)
    ensures forall g :: g in r <==> g in groups && GroupAccountLink(g.id, accountId) in gam
    ensures NoDup(groups) ==> NoDup(r)
  {
    Keep(groups, (g: Group) => GroupAccountLink(g.id, accountId) in gam)
  }

  /**
   * `getAclGroups` as the search is written: the account condition is
   * declared but never given a value, and the search layer leaves out a
   * condition without a value, so every group that has any member is
   * selected, whatever the account.
   */
  function MemberGroups(groups: seq<Group>, gam: seq<GroupAccountLink>): (r: seq<Group>)
    ensures forall g :: g in r <==> g in groups && exists l :: l in gam && l.groupId == g.id
    ensures NoDup(groups) ==> NoDup(r)
  {
    Keep(groups, (g: Group) => exists l :: l in gam && l.groupId == g.id)
  }

  /**
   * As written, an account receives every group of another account, while
   * the intended query gives it only its own groups, which are among them.
   */
  lemma MemberGroupsIgnoreAccount(groups: seq<Group>, gam: seq<GroupAccountLink>, g: Group,
                                  member: int, accountId: int)
    requires g in groups && GroupAccountLink(g.id, member) in gam
    requires GroupAccountLink(g.id, accountId) !in gam
    ensures g in MemberGroups(groups, gam) && g !in AccountGroups(groups, gam, accountId)
    ensures forall h :: h in AccountGroups(groups, gam, accountId) ==> h in MemberGroups(groups, gam)
  {
    forall h | h in AccountGroups(groups, gam, accountId) ensures h in MemberGroups(groups, gam) {
      assert GroupAccountLink(h.id, accountId) in gam;
    }
  }

  /**
   * `isAPIAccessibleForRoles`: some api_permission row names the API and
   * one of the given roles.
   */
  predicate ApiAccessible(ap: seq<ApiPermission>, apiName: string, roles: seq<Role>) {
    exists i, j :: 0 <= i < |ap| && 0 <= j < |roles| && ap[i].apiName == apiName && ap[i].roleId == roles[j].id
  }

  /**
   * `isAPIAccessibleForRoles` as the search is written: the API name
   * condition is never given a value, so any api_permission row of one of
   * the roles makes the answer true.
   */
  predicate AnyApiGranted(ap: seq<ApiPermission>, roles: seq<Role>) {
    exists i, j :: 0 <= i < |ap| && 0 <= j < |roles| && ap[i].roleId == roles[j].id
  }

  /**
   * As written, an API granted to no role at all is reported accessible as
   * soon as one of the roles holds some other API.
   */
  lemma UngrantedApiAccessibleAsWritten(ap: seq<ApiPermission>, apiName: string, roles: seq<Role>, i: int, j: int)
    requires 0 <= i < |ap| && 0 <= j < |roles| && ap[i].roleId == roles[j].id
    requires forall p :: p in ap ==> p.apiName != apiName
    ensures AnyApiGranted(ap, roles) && !ApiAccessible(ap, apiName, roles)
  {
  }

  /** The role named RESOURCE_OWNER in the root domain, if there is one. */
  function OwnerRole(roles: seq<Role>): (r: Option<Role>)
    ensures r.Some? ==> r.value in roles && r.value.name == ResourceOwner && r.value.domainId == RootDomain
    ensures r.None? ==> forall x :: x in roles ==> !(x.name == ResourceOwner && x.domainId == RootDomain)
  {
    FindRoleByName(roles, RootDomain, ResourceOwner)
  }

  /**
   * `getEffectiveRoles`: the caller's static roles, followed by the
   * RESOURCE_OWNER role when the caller owns the entity.
   */
  function EffectiveRoles(roles: seq<Role>, grm: seq<GroupRoleLink>, gam: seq<GroupAccountLink>,
                          callerId: int, entity: Entity): (r: seq<Role>)
    ensures StaticRoles(roles, grm, gam, callerId) <= r
    ensures |r| <= |StaticRoles(roles, grm, gam, callerId)| + 1
  {
    var rs := StaticRoles(roles, grm, gam, callerId);
    if callerId == entity.ownerAccountId && OwnerRole(roles).Some? then rs + [OwnerRole(roles).value] else rs
  }

  /**
   * The owner of an entity holds the root-domain RESOURCE_OWNER role among
   * its effective roles even when no group links it to that role.
   */
  lemma OwnerHoldsResourceOwnerRole(roles: seq<Role>, grm: seq<GroupRoleLink>, gam: seq<GroupAccountLink>,
                                    callerId: int, entity: Entity, owner: Role)
    requires owner in roles && owner.name == ResourceOwner && owner.domainId == RootDomain
    requires callerId == entity.ownerAccountId
    ensures exists x :: x in EffectiveRoles(roles, grm, gam, callerId, entity) && x.name == ResourceOwner && x.domainId == RootDomain
  {
    var r := EffectiveRoles(roles, grm, gam, callerId, entity);
    assert r[|r| - 1] == OwnerRole(roles).value;
  }

  /**
   * Exactly one role is appended, and only for the owner when the
   * RESOURCE_OWNER role exists; the appended role is that role.
   */
  lemma OwnerRoleAppended(roles: seq<Role>, grm: seq<GroupRoleLink>, gam: seq<GroupAccountLink>,
                          callerId: int, entity: Entity)
    ensures var r := EffectiveRoles(roles, grm, gam, callerId, entity);
            var n := |StaticRoles(roles, grm, gam, callerId)|;
            && ((callerId == entity.ownerAccountId && OwnerRole(roles).Some?) <==> |r| == n + 1)
            && (|r| == n + 1 ==> r[n] == OwnerRole(roles).value)
  {
  }

  /**
   * The RESOURCE_OWNER role is appended even when the owner already holds
   * it through a group, so it is then listed twice.
   */
  lemma OwnerRoleListedTwice(roles: seq<Role>, grm: seq<GroupRoleLink>, gam: seq<GroupAccountLink>,
                             callerId: int, entity: Entity)
    requires NoDup(roles)
    requires callerId == entity.ownerAccountId && OwnerRole(roles).Some?
    requires Reaches(grm, gam, callerId, OwnerRole(roles).value.id)
    ensures Occurrences(EffectiveRoles(roles, grm, gam, callerId, entity), OwnerRole(roles).value) == 2
  {
    var o := OwnerRole(roles).value;
    var st := StaticRoles(roles, grm, gam, callerId);
    assert EffectiveRoles(roles, grm, gam, callerId, entity) == st + [o];
    MultisetOccurrences(st + [o], o);
    MultisetOccurrences(st, o);
    NoDupOccurrences(st, o);
  }

  /** A caller who does not own the entity gets exactly its static roles. */
  lemma NonOwnerGetsStaticRoles(roles: seq<Role>, grm: seq<GroupRoleLink>, gam: seq<GroupAccountLink>,
                                callerId: int, entity: Entity)
    requires callerId != entity.ownerAccountId
    ensures EffectiveRoles(roles, grm, gam, callerId, entity) == StaticRoles(roles, grm, gam, callerId)
  {
  }

  // ------------------------------------------------ policy permissions

  /** `p` is an allow row of `roleId` for this entity type and access type. */
  predicate Grants(p: PolicyPermission, roleId: int, entityType: string, accessType: AccessType) {
    p.roleId == roleId && p.entityType == entityType && p.accessType == accessType && p.allow
  }

  /** The allow row of one role (`findByRoleEntityAndPermission(role, type, access, true)`). */
  function FindPolicyPermission(pp: seq<PolicyPermission>, roleId: int, entityType: string,
                                accessType: AccessType): (r: Option<PolicyPermission>)
    ensures r.Some? ==> r.value in pp && Grants(r.value, roleId, entityType, accessType)
    ensures r.None? <==> forall p :: p in pp ==> !Grants(p, roleId, entityType, accessType)
  {
    FindFirst(pp, (p: PolicyPermission) => Grants(p, roleId, entityType, accessType))
  }

  /** The rows the lookup finds, one per role that has one, in role order. */
  ghost function RoleMatches(pp: seq<PolicyPermission>, roles: seq<Role>, entityType: string,
                             accessType: AccessType): seq<PolicyPermission>
    decreases |roles|
  {
    if roles == [] then []
    else
      var front := RoleMatches(pp, roles[..|roles| - 1], entityType, accessType);
      match FindPolicyPermission(pp, roles[|roles| - 1].id, entityType, accessType)
      case Some(p) => front + [p]
      case None => front
  }

  /**
   * At most one match per role, every match an allow row of the entity and
   * access type, and no match at all exactly when no role has an allow row.
   */
  lemma {:induction false} RoleMatchesFacts(pp: seq<PolicyPermission>, roles: seq<Role>, entityType: string,
                                            accessType: AccessType)
    ensures var ms := RoleMatches(pp, roles, entityType, accessType);
            && |ms| <= |roles|
            && (forall m :: m in ms ==> m in pp && m.entityType == entityType && m.accessType == accessType && m.allow)
            && (ms == [] <==> forall j :: 0 <= j < |roles| ==> FindPolicyPermission(pp, roles[j].id, entityType, accessType).None?)
    decreases |roles|
  {
    if roles != [] {
      var front := roles[..|roles| - 1];
      RoleMatchesFacts(pp, front, entityType, accessType);
      assert forall j :: 0 <= j < |roles| - 1 ==> front[j] == roles[j];
    }
  }

  /**
   * `ms[k]` is what the scan keeps: no match has a strictly broader scope,
   * and every earlier match has a strictly narrower one (on equal scope the
   * earlier match stays).
   */
  ghost predicate IsBroadest(ms: seq<PolicyPermission>, k: int) {
    && 0 <= k < |ms|
    && (forall j :: 0 <= j < |ms| ==> !GreaterThan(ms[j].scope, ms[k].scope))
    && (forall j :: 0 <= j < k ==> GreaterThan(ms[k].scope, ms[j].scope))
  }

  /** One more role adds its allow row, if it has one, at the end of the matches. */
  lemma RoleMatchesSnoc(pp: seq<PolicyPermission>, rs: seq<Role>, i: nat, entityType: string, accessType: AccessType)
    requires i < |rs|
    ensures RoleMatches(pp, rs[..i + 1], entityType, accessType) ==
            match FindPolicyPermission(pp, rs[i].id, entityType, accessType)
            case Some(p) => RoleMatches(pp, rs[..i], entityType, accessType) + [p]
            case None => RoleMatches(pp, rs[..i], entityType, accessType)
  {
    assert rs[..i + 1][..i] == rs[..i];
  }

  /**
   * One step of the scan: a new match replaces the kept one exactly when
   * its scope is strictly broader.
   */
  lemma BroadestStep(ms: seq<PolicyPermission>, k: int, p: PolicyPermission)
    requires IsBroadest(ms, k)
    ensures GreaterThan(p.scope, ms[k].scope) ==> IsBroadest(ms + [p], |ms|)
    ensures !GreaterThan(p.scope, ms[k].scope) ==> IsBroadest(ms + [p], k)
  {
  }

  /** The first match found is the broadest of a single match. */
  lemma BroadestFirst(p: PolicyPermission)
    ensures IsBroadest([p], 0)
  {
  }

  /** The choice is determined: at most one index is the broadest-first match. */
  lemma BroadestUnique(ms: seq<PolicyPermission>, k1: int, k2: int)
    requires IsBroadest(ms, k1) && IsBroadest(ms, k2)
    ensures k1 == k2
  {
    var s1, s2 := ms[k1].scope, ms[k2].scope;
    assert !GreaterThan(s1, s2) && !GreaterThan(s2, s1);
  }

  /** A domain-wide allow wins over narrower ones: the chosen row is at least domain-wide. */
  lemma DomainScopePreferred(ms: seq<PolicyPermission>, k: int, d: int)
    requires IsBroadest(ms, k) && 0 <= d < |ms| && ms[d].scope == Domain
    ensures ms[k].scope == Domain || ms[k].scope == Global
  {
  }

  // -------------------------------------------------- entity permissions

  /** Ids of a list of groups. */
  function GroupIds(gs: seq<Group>): (ids: set<int>)
    ensures forall g :: g in gs ==> g.id in ids
    ensures forall id :: id in ids ==> exists g :: g in gs && g.id == id
  {
    set g | g in gs :: g.id
  }

  /**
   * Entity ids of the rows of these groups for this entity type, access
   * type and allow flag (`findEntityIdByGroupAndPermission`, over a set of groups).
   */
  function EntityIds(ep: seq<EntityPermission>, groupIds: set<int>, entityType: string,
                     accessType: AccessType, allow: bool): (ids: set<int>)
    ensures forall e :: (e in ep && e.groupId in groupIds && e.entityType == entityType &&
                         e.accessType == accessType && e.allow == allow) ==> e.entityId in ids
    ensures forall id :: id in ids ==> exists e :: e in ep && e.groupId in groupIds && e.entityType == entityType &&
                                                   e.accessType == accessType && e.allow == allow && e.entityId == id
  {
    set e | e in ep && e.groupId in groupIds && e.entityType == entityType &&
            e.accessType == accessType && e.allow == allow :: e.entityId
  }

  /** Collecting ids group by group is collecting them over the union of the groups. */
  lemma EntityIdsUnion(ep: seq<EntityPermission>, a: set<int>, b: set<int>, entityType: string,
                       accessType: AccessType, allow: bool)
    ensures EntityIds(ep, a + b, entityType, accessType, allow) ==
            EntityIds(ep, a, entityType, accessType, allow) + EntityIds(ep, b, entityType, accessType, allow)
  {
  }

  /** The ids of one more group are added to those of the groups before it. */
  lemma EntityIdsSnoc(ep: seq<EntityPermission>, gs: seq<Group>, i: nat, entityType: string,
                      accessType: AccessType, allow: bool)
    requires i < |gs|
    ensures EntityIds(ep, GroupIds(gs[..i + 1]), entityType, accessType, allow) ==
            EntityIds(ep, GroupIds(gs[..i]), entityType, accessType, allow) +
            EntityIds(ep, {gs[i].id}, entityType, accessType, allow)
  {
    assert GroupIds(gs[..i + 1]) == GroupIds(gs[..i]) + {gs[i].id} by {
      assert gs[..i + 1] == gs[..i] + [gs[i]];
    }
    EntityIdsUnion(ep, GroupIds(gs[..i]), {gs[i].id}, entityType, accessType, allow);
  }

  /** The allowed ids of an account: allow rows of all its groups (first list of `getAclEntityPermission`). */
  ghost function AllowedIds(ep: seq<EntityPermission>, groups: seq<Group>, gam: seq<GroupAccountLink>,
                            accountId: int, entityType: string, accessType: AccessType): set<int> {
    EntityIds(ep, GroupIds(AccountGroups(groups, gam, accountId)), entityType, accessType, true)
  }

  /** The denied ids of an account: deny rows of all its groups (second list of `getAclEntityPermission`). */
  ghost function DeniedIds(ep: seq<EntityPermission>, groups: seq<Group>, gam: seq<GroupAccountLink>,
                           accountId: int, entityType: string, accessType: AccessType): set<int> {
    EntityIds(ep, GroupIds(AccountGroups(groups, gam, accountId)), entityType, accessType, false)
  }

  /**
   * Every allowed id comes from an allow row of a group the account is
   * linked to.
   */
  lemma AllowedIdsFromOwnGroups(ep: seq<EntityPermission>, groups: seq<Group>, gam: seq<GroupAccountLink>,
                                accountId: int, entityType: string, accessType: AccessType, id: int)
    requires id in AllowedIds(ep, groups, gam, accountId, entityType, accessType)
    ensures exists e :: e in ep && e.entityId == id && e.allow && e.entityType == entityType &&
                        e.accessType == accessType && GroupAccountLink(e.groupId, accountId) in gam
  {
    var gs := AccountGroups(groups, gam, accountId);
    var e :| e in ep && e.groupId in GroupIds(gs) && e.entityType == entityType &&
             e.accessType == accessType && e.allow && e.entityId == id;
    var g :| g in gs && g.id == e.groupId;
    assert GroupAccountLink(g.id, accountId) in gam;
  }

  /**
   * As written, an account in no group at all is reported the allowed ids
   * of other accounts' groups; the intended query reports none.
   */
  lemma GroupLessAccountSeesForeignGrants(ep: seq<EntityPermission>, groups: seq<Group>, gam: seq<GroupAccountLink>,
                                          accountId: int, g: Group, member: int, row: EntityPermission)
    requires g in groups && GroupAccountLink(g.id, member) in gam
    requires forall l :: l in gam ==> l.accountId != accountId
    requires row in ep && row.groupId == g.id && row.allow
    ensures row.entityId in EntityIds(ep, GroupIds(MemberGroups(groups, gam)), row.entityType, row.accessType, true)
    ensures AllowedIds(ep, groups, gam, accountId, row.entityType, row.accessType) == {}
  {
    assert g in MemberGroups(groups, gam);
    var gs := AccountGroups(groups, gam, accountId);
    assert forall h :: h in gs ==> GroupAccountLink(h.id, accountId) in gam;
    assert GroupIds(gs) == {};
  }

  /**
   * The two sets are not reconciled: when one group of the account allows
   * an entity and another denies it, the id is in both.
   */
  lemma ConflictingGrantsBothReported(ep: seq<EntityPermission>, groups: seq<Group>, gam: seq<GroupAccountLink>,
                                      accountId: int, g1: Group, g2: Group, allowRow: EntityPermission,
                                      denyRow: EntityPermission)
    requires g1 in groups && g2 in groups
    requires GroupAccountLink(g1.id, accountId) in gam && GroupAccountLink(g2.id, accountId) in gam
    requires allowRow in ep && allowRow.groupId == g1.id && allowRow.allow
    requires denyRow in ep && denyRow.groupId == g2.id && !denyRow.allow
    requires allowRow.entityType == denyRow.entityType && allowRow.accessType == denyRow.accessType
    requires allowRow.entityId == denyRow.entityId
    ensures allowRow.entityId in AllowedIds(ep, groups, gam, accountId, allowRow.entityType, allowRow.accessType)
    ensures allowRow.entityId in DeniedIds(ep, groups, gam, accountId, allowRow.entityType, allowRow.accessType)
  {
    var gs := AccountGroups(groups, gam, accountId);
    assert g1 in gs && g2 in gs;
  }
}
