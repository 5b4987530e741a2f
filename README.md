# ACL engine of the CloudStack access-control service

A Dafny model of `AclServiceImpl`, the service that keeps the ACL tables of
the platform and answers access questions from them.

The service keeps seven tables: role, group, group_role_map (which roles a
group holds), group_account_map (which accounts are in a group),
api_permission (which API names a role may call), policy_permission (the
entity-type rules of a role, each with a scope and an allow flag) and
entity_permission (explicit allow or deny rows of single entities for a
group).

- `rows.dfy` (module `Rows`): the table algebra the DAO calls reduce to. A
  `findBy…` is `FindFirst`, a "find; insert if absent" loop is `InsertAbsent`,
  and a "find; remove if present" loop is `RemoveRows`. The module also proves
  their idempotence and no-duplicate laws.
- `acl_types.dfy` (module `AclTypes`): the row records and the two error
  kinds. It holds the scope order and the entity-type registry. It also holds
  the `Caller` record, which stands for the call context, the root-admin test
  and the access checker.
- `acl_queries.dfy` (module `AclQueries`): the lookups and the resolution
  queries as functions over table values. These are the static roles of an
  account, its groups, the effective roles, the policy-permission choice, the
  allowed and denied entity ids, and the API existence test. Two searches
  whose conditions are never given values are also modelled as written,
  beside the intended query (see Findings).
- `acl_tables.dfy` (module `AclTables`): what each registry operation does to
  the tables, as functions of the old tables. It states the table invariant
  `TablesValid`, which covers the uniqueness keys and the links pointing at
  existing roles and groups. It proves that every operation keeps the
  invariant, and it proves the properties of the operations.
- `acl_registry.dfy` (module `AclRegistry`): class `AclService`.
  - The class holds the tables as `seq` fields. Each registry operation is a
    method with the source's checks, error exits and find-then-persist or
    find-then-remove loops. Each method is proved to leave exactly the tables
    the functions of `AclTables` describe.
  - A transaction is modelled in two ways. The loops of the link operations run
    on a copy of the table, which is stored only when every id passed. The
    other transactions are helper methods called after all checks have passed.
  - The two accumulating queries are read-only methods proved equal to their
    specification.

## Model

| member | source | states |
|---|---|---|
| AclTypes.GreaterThanStrictTotal | server/src/org/apache/cloudstack/acl/AclServiceImpl.java:596 | scope comparison is irreflexive, transitive, asymmetric and total on distinct scopes |
| AclTypes.EntityUuidIdentifies | server/src/org/apache/cloudstack/acl/AclServiceImpl.java:292-295 | an entity without a uuid of its own is recorded under text that reads back as its id, so two such entities never share a recorded uuid |
| AclTypes.Digits | server/src/org/apache/cloudstack/acl/AclServiceImpl.java:292 | the decimal text of an id is non-empty and made of digits only |
| AclTypes.DigitsRoundTrip | server/src/org/apache/cloudstack/acl/AclServiceImpl.java:292 | the decimal digits of a number read back as that number |
| AclTypes.DecimalStringRoundTrip | server/src/org/apache/cloudstack/acl/AclServiceImpl.java:292 | the decimal text of any id, negative ones included, reads back as that id |
| AclTypes.DecimalStringInjective | server/src/org/apache/cloudstack/acl/AclServiceImpl.java:292 | distinct ids are recorded under distinct decimal texts |
| AclTypes.MayCreateIn | server/src/org/apache/cloudstack/acl/AclServiceImpl.java:119-124 | the domain check of role and group creation: a root admin may target any domain, any other caller only its own |
| AclTypes.CreationDomain | server/src/org/apache/cloudstack/acl/AclServiceImpl.java:116-124 | a caller that names no domain creates in its own and is never refused on the domain; a caller that is not root admin never creates outside its own domain |
| Rows.FindFirst | server/src/org/apache/cloudstack/acl/AclServiceImpl.java:219 | a DAO lookup returns a row of the table that matches, and returns nothing exactly when no row matches |
| Rows.Keep | server/src/org/apache/cloudstack/acl/AclServiceImpl.java:176 | a list query returns exactly the matching rows, never more than the table holds, and without duplicates when the table has none |
| Rows.RemoveRow | server/src/org/apache/cloudstack/acl/AclServiceImpl.java:179 | removing a row by id drops exactly that row and keeps the table free of duplicates |
| Rows.RemoveRows | server/src/org/apache/cloudstack/acl/AclServiceImpl.java:251-257 | a find-then-remove loop leaves exactly the rows that were not listed |
| Rows.RemoveRowsStep | server/src/org/apache/cloudstack/acl/AclServiceImpl.java:251-257 | one more loop iteration removes one more listed row |
| Rows.RemoveRowsIdempotent | server/src/org/apache/cloudstack/acl/AclServiceImpl.java:247-258 | revoking the same rows twice is revoking them once |
| Rows.InsertOne | server/src/org/apache/cloudstack/acl/AclServiceImpl.java:219-224 | one iteration of a find-then-insert loop: the row is persisted only when the lookup finds nothing (its properties are stated by InsertAbsentFacts) |
| Rows.InsertAbsent | server/src/org/apache/cloudstack/acl/AclServiceImpl.java:214-228 | a whole find-then-insert loop over the listed rows, in list order (its properties are stated by InsertAbsentFacts, InsertAbsentStep and InsertAbsentIdempotent) |
| Rows.InsertAbsentFacts | server/src/org/apache/cloudstack/acl/AclServiceImpl.java:218-225 | a find-then-insert loop keeps the old table as a prefix, adds only listed rows, leaves every listed row present and never stores a row twice |
| Rows.InsertAbsentStep | server/src/org/apache/cloudstack/acl/AclServiceImpl.java:218-225 | one more loop iteration inserts one more listed row if it is absent |
| Rows.InsertAbsentPresent | server/src/org/apache/cloudstack/acl/AclServiceImpl.java:219-224 | when every listed row is already there, the find-then-insert loop changes nothing |
| Rows.InsertAbsentIdempotent | server/src/org/apache/cloudstack/acl/AclServiceImpl.java:214-226 | granting the same rows twice is granting them once |
| Rows.NoDupOccurrences | server/src/org/apache/cloudstack/acl/AclServiceImpl.java:219-224 | in a table without duplicates, a row occurs once or not at all |
| Rows.SameRowsSameMultiset | server/src/org/apache/cloudstack/acl/AclServiceImpl.java:214-258 | two duplicate-free tables with the same rows hold the same multiset of rows |
| Rows.RevokeThenGrant | server/src/org/apache/cloudstack/acl/AclServiceImpl.java:214-258 | revoking then granting rows gives the same table contents, without duplicates, as granting them once |
| AclQueries.FindRoleById | server/src/org/apache/cloudstack/acl/AclServiceImpl.java:164 | the role lookup finds a role row with that id, and finds nothing exactly when no role has the id |
| AclQueries.FindGroupById | server/src/org/apache/cloudstack/acl/AclServiceImpl.java:269 | the group lookup finds a group row with that id, and finds nothing exactly when no group has the id |
| AclQueries.FindRoleByName | server/src/org/apache/cloudstack/acl/AclServiceImpl.java:126 | the role lookup by (domain, name) finds a role of that domain and name, and finds nothing exactly when there is none |
| AclQueries.FindGroupByName | server/src/org/apache/cloudstack/acl/AclServiceImpl.java:507 | the group lookup by (domain, name) finds a group of that domain and name, and finds nothing exactly when there is none |
| AclQueries.StaticRoles | server/src/org/apache/cloudstack/acl/AclServiceImpl.java:560-584 | the static roles are exactly the roles reachable as account -> group -> role, with no duplicates |
| AclQueries.StaticRolesOnce | server/src/org/apache/cloudstack/acl/AclServiceImpl.java:560-584 | a role reachable through several groups appears exactly once, and an unreachable role does not appear |
| AclQueries.AccountGroups | server/src/org/apache/cloudstack/acl/AclServiceImpl.java:605-622 | the intended groups of an account: exactly the groups linked to it, with no duplicates; the search as written does not restrict by account (see Findings) |
| AclQueries.MemberGroups | server/src/org/apache/cloudstack/acl/AclServiceImpl.java:605-622 | the groups the search selects as written, with the account condition left without a value: exactly the groups that have any member, whatever the account |
| AclQueries.MemberGroupsIgnoreAccount | server/src/org/apache/cloudstack/acl/AclServiceImpl.java:605-622 | as written an account receives a group of another account that it is not in, while the intended groups of the account are all among those selected |
| AclQueries.ApiAccessible | server/src/org/apache/cloudstack/acl/AclServiceImpl.java:655-668 | the intended API check: some api_permission row names the API and one of the given roles (stated by IsApiAccessibleForRoles and the grant and revoke lemmas) |
| AclQueries.AnyApiGranted | server/src/org/apache/cloudstack/acl/AclServiceImpl.java:655-668 | the API check as written, with the name condition left without a value: some api_permission row names one of the roles |
| AclQueries.UngrantedApiAccessibleAsWritten | server/src/org/apache/cloudstack/acl/AclServiceImpl.java:655-668 | as written an API granted to no role is reported accessible as soon as one of the roles holds any other API, while the intended check reports it inaccessible |
| AclQueries.OwnerRole | server/src/org/apache/cloudstack/acl/AclServiceImpl.java:682 | the owner role is the root-domain role named RESOURCE_OWNER, and is missing exactly when no such role exists |
| AclQueries.EffectiveRoles | server/src/org/apache/cloudstack/acl/AclServiceImpl.java:673-687 | the effective roles start with the static roles and add at most one role |
| AclQueries.OwnerHoldsResourceOwnerRole | server/src/org/apache/cloudstack/acl/AclServiceImpl.java:680-684 | the owner of an entity gets the RESOURCE_OWNER role even without a group link to it |
| AclQueries.OwnerRoleAppended | server/src/org/apache/cloudstack/acl/AclServiceImpl.java:678-686 | a role is appended exactly when the caller owns the entity and the RESOURCE_OWNER role exists, and the appended role is that role |
| AclQueries.OwnerRoleListedTwice | server/src/org/apache/cloudstack/acl/AclServiceImpl.java:678-686 | the RESOURCE_OWNER role is appended even when the owner already holds it through a group, so it is then listed twice |
| AclQueries.NonOwnerGetsStaticRoles | server/src/org/apache/cloudstack/acl/AclServiceImpl.java:677-686 | a caller that does not own the entity gets exactly its static roles |
| AclQueries.FindPolicyPermission | server/src/org/apache/cloudstack/acl/AclServiceImpl.java:591 | the lookup finds an allow row of that role, entity type and access type, and finds nothing exactly when there is none |
| AclQueries.RoleMatchesFacts | server/src/org/apache/cloudstack/acl/AclServiceImpl.java:588-593 | the scan sees at most one allow row per role, and sees none exactly when no static role has a matching allow row |
| AclQueries.RoleMatches | server/src/org/apache/cloudstack/acl/AclServiceImpl.java:588-593 | the allow rows the scan looks at, one per static role that has one, in role order (stated by RoleMatchesFacts and RoleMatchesSnoc) |
| AclQueries.IsBroadest | server/src/org/apache/cloudstack/acl/AclServiceImpl.java:594-599 | what the scan keeps: a match no other match strictly exceeds in scope, with every earlier match strictly narrower (stated by BroadestStep, BroadestUnique and DomainScopePreferred) |
| AclQueries.RoleMatchesSnoc | server/src/org/apache/cloudstack/acl/AclServiceImpl.java:590-593 | one more role adds its allow row, if any, after the rows seen so far |
| AclQueries.BroadestStep | server/src/org/apache/cloudstack/acl/AclServiceImpl.java:594-599 | a new match replaces the kept one exactly when its scope is strictly broader, and the kept row stays the broadest-first match |
| AclQueries.BroadestFirst | server/src/org/apache/cloudstack/acl/AclServiceImpl.java:594-595 | the first match found is kept |
| AclQueries.BroadestUnique | server/src/org/apache/cloudstack/acl/AclServiceImpl.java:586-603 | the broadest-first match is unique, so the choice is determined |
| AclQueries.DomainScopePreferred | server/src/org/apache/cloudstack/acl/AclServiceImpl.java:596-598 | when some match is domain-wide, the chosen row is domain-wide or global |
| AclQueries.GroupIds | server/src/org/apache/cloudstack/acl/AclServiceImpl.java:632-634 | the ids of a list of groups are exactly the ids of its members |
| AclQueries.EntityIds | server/src/org/apache/cloudstack/acl/AclServiceImpl.java:634-641 | the ids collected are exactly the entity ids of the groups' rows with that type, access type and allow flag |
| AclQueries.EntityIdsUnion | server/src/org/apache/cloudstack/acl/AclServiceImpl.java:630-642 | collecting ids group by group gives the ids of the union of the groups |
| AclQueries.EntityIdsSnoc | server/src/org/apache/cloudstack/acl/AclServiceImpl.java:632-642 | one more group adds exactly its own ids |
| AclQueries.AllowedIdsFromOwnGroups | server/src/org/apache/cloudstack/acl/AclServiceImpl.java:624-645 | with the intended groups, every allowed id comes from an allow row of a group the account is linked to |
| AclQueries.GroupLessAccountSeesForeignGrants | server/src/org/apache/cloudstack/acl/AclServiceImpl.java:605-645 | as written an account in no group is reported the allowed ids of other accounts' groups; with the intended groups it is reported none |
| AclQueries.ConflictingGrantsBothReported | server/src/org/apache/cloudstack/acl/AclServiceImpl.java:630-643 | an entity allowed by one group of the account and denied by another is in both result sets |
| AclTables.RoleTableSnoc | server/src/org/apache/cloudstack/acl/AclServiceImpl.java:126-139 | a role with the next id and a name new in its domain keeps the role table's keys |
| AclTables.GroupTableSnoc | server/src/org/apache/cloudstack/acl/AclServiceImpl.java:507-516 | a group with the next id and a name new in its domain keeps the group table's keys |
| AclTables.RolesWithout | server/src/org/apache/cloudstack/acl/AclServiceImpl.java:192 | removing a role keeps exactly the rows of the other roles |
| AclTables.GroupsWithout | server/src/org/apache/cloudstack/acl/AclServiceImpl.java:553 | removing a group keeps exactly the rows of the other groups |
| AclTables.RoleLinksOfRole | server/src/org/apache/cloudstack/acl/AclServiceImpl.java:176 | the group_role_map rows listed for a role are exactly its rows |
| AclTables.RoleLinksOfGroup | server/src/org/apache/cloudstack/acl/AclServiceImpl.java:537 | the group_role_map rows listed for a group are exactly its rows |
| AclTables.AccountLinksOfGroup | server/src/org/apache/cloudstack/acl/AclServiceImpl.java:545 | the group_account_map rows listed for a group are exactly its rows |
| AclTables.ApisOfRole | server/src/org/apache/cloudstack/acl/AclServiceImpl.java:184 | the api_permission rows listed for a role are exactly its rows |
| AclTables.PolicyRowsOf | server/src/org/apache/cloudstack/acl/AclServiceImpl.java:142 | the policy_permission rows listed for a role are exactly its rows |
| AclTables.RoleLinksWithoutRole | server/src/org/apache/cloudstack/acl/AclServiceImpl.java:175-181 | after the cascade no group_role_map row names the role, and every other row stays |
| AclTables.RoleLinksWithoutGroup | server/src/org/apache/cloudstack/acl/AclServiceImpl.java:536-542 | after the cascade no group_role_map row names the group, and every other row stays |
| AclTables.AccountLinksWithoutGroup | server/src/org/apache/cloudstack/acl/AclServiceImpl.java:544-550 | after the cascade no group_account_map row names the group, and every other row stays |
| AclTables.ApisWithoutRole | server/src/org/apache/cloudstack/acl/AclServiceImpl.java:183-189 | after the cascade no api_permission row names the role, and every other row stays |
| AclTables.CascadeRoleLinks | server/src/org/apache/cloudstack/acl/AclServiceImpl.java:176-181 | removing one by one the rows listed for a role leaves exactly the rows of other roles, in table order |
| AclTables.CascadeApis | server/src/org/apache/cloudstack/acl/AclServiceImpl.java:184-189 | removing one by one the API grants listed for a role leaves exactly the grants of other roles |
| AclTables.CascadeGroupRoleLinks | server/src/org/apache/cloudstack/acl/AclServiceImpl.java:537-542 | removing one by one the role links listed for a group leaves exactly the links of other groups |
| AclTables.CascadeGroupAccountLinks | server/src/org/apache/cloudstack/acl/AclServiceImpl.java:545-550 | removing one by one the account links listed for a group leaves exactly the links of other groups |
| AclTables.DeletedRoleUnreachable | server/src/org/apache/cloudstack/acl/AclServiceImpl.java:172-194 | after a role is deleted no account reaches it, so the policy rows the delete leaves behind never take part in the policy choice through that role; a new child of the deleted id still inherits them (see Left out) |
| AclTables.MatchesComeFromRoles | server/src/org/apache/cloudstack/acl/AclServiceImpl.java:588-600 | every row the policy scan sees belongs to one of the roles scanned |
| AclTables.DeletedGroupUnreachable | server/src/org/apache/cloudstack/acl/AclServiceImpl.java:533-555 | after a group is deleted it is among the groups of no account |
| AclTables.CopyToRole | server/src/org/apache/cloudstack/acl/AclServiceImpl.java:144-147 | each copied row is the parent's row with the new role id, in the parent's order |
| AclTables.InheritedRows | server/src/org/apache/cloudstack/acl/AclServiceImpl.java:140-149 | every inherited row belongs to the new role |
| AclTables.ChildInheritsParent | server/src/org/apache/cloudstack/acl/AclServiceImpl.java:140-149 | the new role holds exactly the parent's rows under its own id, and the parent's rows are unchanged |
| AclTables.ApiRows | server/src/org/apache/cloudstack/acl/AclServiceImpl.java:218-222 | one (role, api) row per listed name, in list order |
| AclTables.ApiRowsMembership | server/src/org/apache/cloudstack/acl/AclServiceImpl.java:218-222 | a row is among the listed rows exactly when it names the role and a listed API |
| AclTables.GrantApiExactlyOnce | server/src/org/apache/cloudstack/acl/AclServiceImpl.java:214-226 | after a grant each listed name has exactly one (role, api) row, the old rows stay in place, and only listed rows are added |
| AclTables.RevokeApiExactly | server/src/org/apache/cloudstack/acl/AclServiceImpl.java:247-258 | a revoke removes exactly the (role, listed name) rows |
| AclTables.GrantApiMakesAccessible | server/src/org/apache/cloudstack/acl/AclServiceImpl.java:214-226 | after a grant the API is accessible to any role list that holds the role |
| AclTables.RevokeApiMakesInaccessible | server/src/org/apache/cloudstack/acl/AclServiceImpl.java:247-258 | after a revoke the API is no longer accessible through that role |
| AclTables.RoleLinks | server/src/org/apache/cloudstack/acl/AclServiceImpl.java:355-369 | one (group, role) link per listed role id, in list order |
| AclTables.AccountLinks | server/src/org/apache/cloudstack/acl/AclServiceImpl.java:433-447 | one (group, account) link per listed account id, in list order |
| AclTables.AddRolesExactlyOnce | server/src/org/apache/cloudstack/acl/AclServiceImpl.java:351-372 | after adding roles to a group each (group, role) link exists exactly once |
| AclTables.AddAccountsExactlyOnce | server/src/org/apache/cloudstack/acl/AclServiceImpl.java:429-450 | after adding accounts to a group each (group, account) link exists exactly once |
| AclTables.LinkedRoleIsStatic | server/src/org/apache/cloudstack/acl/AclServiceImpl.java:560-584 | once an account and a role are both linked to a group, the role is among the account's static roles |
| AclTables.FindEntityPermission | server/src/org/apache/cloudstack/acl/AclServiceImpl.java:289 | the lookup finds the row of the (group, type, id, access) key whatever its allow flag, and finds nothing exactly when there is none |
| AclTables.GrantEntity | server/src/org/apache/cloudstack/acl/AclServiceImpl.java:288-298 | the entity_permission table after a grant: the key's row is left as it is, else an allow row with the recorded uuid is appended (stated by GrantEntityOneRow and GrantEntityAllows) |
| AclTables.RevokeEntity | server/src/org/apache/cloudstack/acl/AclServiceImpl.java:328-333 | the entity_permission table after a revoke: the key's row is removed, else nothing changes (stated by RevokeEntityNoRow and RevokeEntityForgets) |
| AclTables.GrantEntityOneRow | server/src/org/apache/cloudstack/acl/AclServiceImpl.java:288-298 | after an entity grant the key has exactly one row; a new allow row is added only when the key had no row, and nothing else changes |
| AclTables.RevokeEntityNoRow | server/src/org/apache/cloudstack/acl/AclServiceImpl.java:328-333 | after an entity revoke the key has no row whatever its allow flag was, and every other row stays |
| AclTables.GrantEntityAllows | server/src/org/apache/cloudstack/acl/AclServiceImpl.java:288-298 | after a grant to one of the account's groups the entity is allowed, unless that group already held a deny row for it |
| AclTables.RevokeEntityForgets | server/src/org/apache/cloudstack/acl/AclServiceImpl.java:328-333 | after a revoke the group reports the entity in neither the allowed nor the denied set |
| AclTables.RoleCreatedValid | server/src/org/apache/cloudstack/acl/AclServiceImpl.java:134-152 | creating a role with its inherited rows keeps the table invariant |
| AclTables.RoleDeletedValid | server/src/org/apache/cloudstack/acl/AclServiceImpl.java:172-194 | deleting a role with its links and API grants keeps the table invariant |
| AclTables.ApisGrantedValid | server/src/org/apache/cloudstack/acl/AclServiceImpl.java:214-227 | granting APIs to an existing role keeps the table invariant |
| AclTables.ApisRevokedValid | server/src/org/apache/cloudstack/acl/AclServiceImpl.java:247-259 | revoking APIs keeps the table invariant |
| AclTables.EntityGrantedValid | server/src/org/apache/cloudstack/acl/AclServiceImpl.java:288-298 | an entity grant to an existing group keeps the table invariant |
| AclTables.EntityRevokedValid | server/src/org/apache/cloudstack/acl/AclServiceImpl.java:328-333 | an entity revoke keeps the table invariant |
| AclTables.RoleLinksAddedValid | server/src/org/apache/cloudstack/acl/AclServiceImpl.java:351-372 | linking an existing group to existing roles keeps the table invariant |
| AclTables.RoleLinksRemovedValid | server/src/org/apache/cloudstack/acl/AclServiceImpl.java:391-411 | unlinking roles keeps the table invariant |
| AclTables.AccountLinksAddedValid | server/src/org/apache/cloudstack/acl/AclServiceImpl.java:429-450 | linking accounts to an existing group keeps the table invariant |
| AclTables.AccountLinksRemovedValid | server/src/org/apache/cloudstack/acl/AclServiceImpl.java:468-488 | unlinking accounts keeps the table invariant |
| AclTables.GroupCreatedValid | server/src/org/apache/cloudstack/acl/AclServiceImpl.java:513-516 | creating a group with the next id and a new name keeps the table invariant |
| AclTables.GroupDeletedValid | server/src/org/apache/cloudstack/acl/AclServiceImpl.java:533-555 | deleting a group with its links keeps the table invariant |
| AclRegistry.LinkRoles | server/src/org/apache/cloudstack/acl/AclServiceImpl.java:351-372 | all or nothing: the role links are added exactly when every listed role exists and is accessible, and otherwise the error comes from the first role that fails |
| AclRegistry.UnlinkRoles | server/src/org/apache/cloudstack/acl/AclServiceImpl.java:391-411 | all or nothing: the listed links are removed exactly when every listed role exists and is accessible, and otherwise the error comes from the first role that fails |
| AclRegistry.LinkAccounts | server/src/org/apache/cloudstack/acl/AclServiceImpl.java:429-450 | all or nothing: the account links are added exactly when every listed account exists and is accessible, and otherwise the error comes from the first account that fails |
| AclRegistry.UnlinkAccounts | server/src/org/apache/cloudstack/acl/AclServiceImpl.java:468-488 | all or nothing: the listed links are removed exactly when every listed account exists and is accessible, and otherwise the error comes from the first account that fails |
| AclRegistry.LookupError | server/src/org/apache/cloudstack/acl/AclServiceImpl.java:357-362 | a row that is found but not accessible gives PermissionDenied; a row that is missing gives InvalidParameter |
| AclRegistry.AclService.constructor | server/src/org/apache/cloudstack/acl/AclServiceImpl.java:83-109 | the service starts with empty tables that satisfy the invariant |
| AclRegistry.AclService.CreateAclRole | server/src/org/apache/cloudstack/acl/AclServiceImpl.java:111-156 | PermissionDenied for a non-root caller in a foreign domain; InvalidParameter for a name taken in the domain; otherwise a role with a fresh id, plus the parent's policy rows under the new id; tables unchanged on error; the invariant is kept |
| AclRegistry.AclService.InsertRoleRows | server/src/org/apache/cloudstack/acl/AclServiceImpl.java:134-152 | the transaction appends the role under the next id and then the rows it inherits |
| AclRegistry.AclService.CopyParentPermissions | server/src/org/apache/cloudstack/acl/AclServiceImpl.java:140-149 | the copy loop appends each of the parent's rows under the new role, in order |
| AclRegistry.AclService.DeleteAclRole | server/src/org/apache/cloudstack/acl/AclServiceImpl.java:158-197 | InvalidParameter for a missing role and PermissionDenied for an inaccessible one, with nothing changed; otherwise the role row, its group links and its API grants are gone, and the invariant is kept |
| AclRegistry.AclService.RemoveRoleRows | server/src/org/apache/cloudstack/acl/AclServiceImpl.java:172-194 | the cascade leaves exactly the other roles, their links and their API grants |
| AclRegistry.AclService.GrantApiPermissionToAclRole | server/src/org/apache/cloudstack/acl/AclServiceImpl.java:200-231 | the role lookup and access errors change nothing; otherwise every listed (role, api) row is inserted if absent and the role is returned; the invariant is kept |
| AclRegistry.AclService.RevokeApiPermissionFromAclRole | server/src/org/apache/cloudstack/acl/AclServiceImpl.java:233-261 | the role lookup and access errors change nothing; otherwise exactly the listed (role, api) rows are removed; the invariant is kept |
| AclRegistry.AclService.GrantEntityPermissionToAclGroup | server/src/org/apache/cloudstack/acl/AclServiceImpl.java:263-301 | errors in source order: missing group, inaccessible group, unregistered type, missing entity, inaccessible entity; otherwise an allow row with the entity's uuid is added only when the key has no row |
| AclRegistry.AclService.RevokeEntityPermissionFromAclGroup | server/src/org/apache/cloudstack/acl/AclServiceImpl.java:303-335 | the same error checks; otherwise the row of the key is removed whatever its allow flag |
| AclRegistry.AclService.AddAclRolesToGroup | server/src/org/apache/cloudstack/acl/AclServiceImpl.java:337-375 | group errors first; then all or nothing over the listed roles with the first failing role's error; on success each (group, role) link is present once and the group is returned |
| AclRegistry.AclService.RemoveAclRolesFromGroup | server/src/org/apache/cloudstack/acl/AclServiceImpl.java:377-413 | group errors first; then all or nothing over the listed roles; on success the listed links are gone |
| AclRegistry.AclService.AddAccountsToGroup | server/src/org/apache/cloudstack/acl/AclServiceImpl.java:415-452 | group errors first; then all or nothing over the listed accounts with the first failing account's error; on success each (group, account) link is present |
| AclRegistry.AclService.RemoveAccountsFromGroup | server/src/org/apache/cloudstack/acl/AclServiceImpl.java:454-490 | group errors first; then all or nothing over the listed accounts; on success the listed links are gone |
| AclRegistry.AclService.CreateAclGroup | server/src/org/apache/cloudstack/acl/AclServiceImpl.java:492-517 | the domain and name checks of role creation; otherwise a group with a fresh id is appended; the invariant is kept |
| AclRegistry.AclService.DeleteAclGroup | server/src/org/apache/cloudstack/acl/AclServiceImpl.java:519-558 | InvalidParameter for a missing group and PermissionDenied for an inaccessible one, with nothing changed; otherwise the group row and its role and account links are gone, and the invariant is kept |
| AclRegistry.AclService.RemoveGroupRows | server/src/org/apache/cloudstack/acl/AclServiceImpl.java:533-555 | the cascade leaves exactly the other groups and their links |
| AclRegistry.AclService.RemoveRoleLinkRows | server/src/org/apache/cloudstack/acl/AclServiceImpl.java:178-180 | the removal loop removes exactly the listed group_role_map rows |
| AclRegistry.AclService.RemoveAccountLinkRows | server/src/org/apache/cloudstack/acl/AclServiceImpl.java:547-549 | the removal loop removes exactly the listed group_account_map rows |
| AclRegistry.AclService.RemoveApiRows | server/src/org/apache/cloudstack/acl/AclServiceImpl.java:186-188 | the removal loop removes exactly the listed api_permission rows |
| AclRegistry.AclService.GetAclRolePermission | server/src/org/apache/cloudstack/acl/AclServiceImpl.java:586-603 | nothing exactly when no static role has a matching allow row; otherwise a match that no other match strictly exceeds in scope, the earliest on ties |
| AclRegistry.AclService.GetAclEntityPermission | server/src/org/apache/cloudstack/acl/AclServiceImpl.java:624-645 | the allowed ids and the denied ids over the intended groups of the account (see Findings), not reconciled; both empty when the account has no groups |
| AclRegistry.AclService.IsApiAccessibleForRoles | server/src/org/apache/cloudstack/acl/AclServiceImpl.java:647-671 | the intended check (see Findings): accessible exactly when some api_permission row names the API and one of the given roles |

## Left out

- Persistence, SQL and the search builders are left out. Tables are in-memory sequences. Row order stands for the order the DAO returns rows, which the source does not specify.
- Database-generated ids are modelled as two counters, `nextRoleId` and `nextGroupId`.
- The DAO's own row ids are not modelled. "Remove by id" removes the equal row, which is unique because each table has no duplicate rows.
- Concurrency, isolation and duplicate-key races between concurrent calls are left out. `Transaction.execute` is modelled only as all-or-nothing.
- The action-event audit records and logging are left out.
- The call context, the root-admin test and the access checker are not modelled. They are inputs: the `Caller` record gives the caller's account and domain, whether it is root admin, and the set of subjects the access check lets it touch.
- The account DAO is an input, the set of existing account ids.
- The entity manager is an input, a map from (type tag, id) to the entity's owner and optional uuid.
- The Java classes stored in `entityClassMap` (lines 101-109) are not modelled. Only the four type tags are kept, as `AclTypes.EntityClassMap`.
- The `Scope` and `AccessType` enumerations are not part of this model. Scopes are taken as resource < account < domain < global, compared only through `GreaterThan`. Access types are compared only for equality.
- `getGrantedDomains`, `getGrantedAccounts` and `getGrantedResources` (lines 689-705) are stubs that return null. They are not modelled.
- The empty-list case of the three `IN (…)` searches (lines 578, 616 and 659) is not modelled. When an account has no groups or roles, or when `isAPIAccessibleForRoles` is given no roles, the model returns an empty result or `false`. What the DAO layer does with an empty `IN` list is decided outside the service and is not part of this model.
- AclRegistry.AclService.IsApiAccessibleForRoles: models the intended check, not the search as written; the difference is recorded under Findings.
- AclQueries.EffectiveRoles: when no root-domain RESOURCE_OWNER role exists, the source appends a null entry (lines 682-683). The model appends nothing.
- AclTables.InheritedRows: the source re-points the parent's fetched rows to the new role before persisting them (lines 144-147). The model treats each persist as a new row, so the parent keeps its rows. Whether the DAO instead moves the parent's rows is decided by the DAO layer, which this model does not include.
- AclTables.InheritedRows: the parent role id is not checked against the role table, and neither does the source check it. The parent's rows are listed by role id alone (line 142). A parent id that never had rows contributes none. A deleted parent still has its policy rows, because role deletion leaves them, so a child created from a deleted parent inherits them.
- Rows.RevokeThenGrant: revoke-then-grant gives the same rows as a single grant, but possibly in a different order, so the statement is equality of contents (multisets), not of sequences.
- AclRegistry.AclService.DeleteAclRole: as in the source (lines 172-193), the role's policy_permission rows are not removed. `AclTables.DeletedRoleUnreachable` shows that no account reaches them through the deleted role. They come back if a new role is created with the deleted id as its parent (see `AclTables.InheritedRows` above).
- AclRegistry.AclService.DeleteAclGroup: as in the source (lines 533-555), the group's entity_permission rows are not removed. `AclTables.DeletedGroupUnreachable` shows that no account reaches the group any more.
- AclRegistry.AclService.GetAclEntityPermission: takes the intended groups of the account, not the groups the search as written selects; the difference is recorded under Findings.
- AclRegistry.AclService.GrantEntityPermissionToAclGroup: as in the source, the entity grant and revoke run outside a transaction. This makes no difference to the model, which is sequential.
- The field `_entityPermissionDao` is used by the entity grant, the entity revoke and `getAclEntityPermission`, but it is not declared in `AclServiceImpl.java`. The model gives it the table `entityPermissions`.

## Findings

| source | as written | input that shows it | evidently intended | confidence | as-written member | corrected member |
|---|---|---|---|---|---|---|
| server/src/org/apache/cloudstack/acl/AclServiceImpl.java:605-622 | `getAclGroups` declares an `account` condition (line 610) but never gives it a value, so the search layer drops it and the group ids of every group_account_map row are selected | group 7 has account 2 as its only member; `getAclGroups(1)` returns group 7, and `getAclEntityPermission(1, …)` reports group 7's allow rows to account 1 | only the groups linked to the account | medium, not executed; relies on the search layer leaving out a condition without a value | AclQueries.GroupLessAccountSeesForeignGrants | AclQueries.AllowedIdsFromOwnGroups |
| server/src/org/apache/cloudstack/acl/AclServiceImpl.java:647-671 | `isAPIAccessibleForRoles` declares an `apiName` condition (line 658) but never gives it a value, so any api_permission row of one of the roles makes the API accessible | role 3 holds only `listVirtualMachines`; `isAPIAccessibleForRoles("deleteAccount", [role 3])` returns true | accessible only when a row names both the API and one of the roles | medium, not executed; relies on the search layer leaving out a condition without a value | AclQueries.UngrantedApiAccessibleAsWritten | AclRegistry.AclService.IsApiAccessibleForRoles |
