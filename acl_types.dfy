/**
 * Rows of the ACL tables, the scope order and the collaborators the service
 * consults (identity of the caller, the access checker, entity lookup).
 */
module AclTypes {

  import opened Rows

  /** The two exceptions the service raises. */
  datatype AclError = InvalidParameter | PermissionDenied

  datatype Result<T> = Ok(value: T) | Err(error: AclError)

  /**
   * Breadth of a policy permission, narrowest first. The enumeration is
   * compared only through `GreaterThan`.
   */
  datatype Scope = Resource | Account | Domain | Global

  function Rank(s: Scope): nat {
    match s
    case Resource => 0
    case Account => 1
    case Domain => 2
    case Global => 3
  }

  /** `a` is strictly broader than `b`. */
  predicate GreaterThan(a: Scope, b: Scope) {
    Rank(a) > Rank(b)
  }

  /** `GreaterThan` is a strict total order on scopes. */
  lemma GreaterThanStrictTotal(a: Scope, b: Scope, c: Scope)
    ensures !GreaterThan(a, a)
    ensures GreaterThan(a, b) && GreaterThan(b, c) ==> GreaterThan(a, c)
    ensures GreaterThan(a, b) ==> !GreaterThan(b, a)
    ensures a != b ==> GreaterThan(a, b) || GreaterThan(b, a)
  {
  }

  /** Access types are compared only for equality; their constants are not part of this model. */
  type AccessType = string

  // ---------------------------------------------------------------- rows

  /** A row of the role table. */
  datatype Role = Role(id: int, name: string, domainId: int, description: string)

  /** A row of the group table. */
  datatype Group = Group(id: int, name: string, domainId: int, description: string)

  /** A row of group_role_map. */
  datatype GroupRoleLink = GroupRoleLink(groupId: int, roleId: int)

  /** A row of group_account_map. */
  datatype GroupAccountLink = GroupAccountLink(groupId: int, accountId: int)

  /** A row of api_permission: presence grants the API to the role. */
  datatype ApiPermission = ApiPermission(roleId: int, apiName: string)

  /** A row of policy_permission. */
  datatype PolicyPermission = PolicyPermission(
    roleId: int, entityType: string, accessType: AccessType, scope: Scope, allow: bool)

  /** A row of entity_permission: an explicit allow or deny of one entity to a group. */
  datatype EntityPermission = EntityPermission(
    groupId: int, entityType: string, entityId: int, entityUuid: string,
    accessType: AccessType, allow: bool)

  // -------------------------------------------------------- collaborators

  /** What the access checker is asked about. */
  datatype Subject =
    | RoleSubject(roleId: int)
    | GroupSubject(groupId: int)
    | AccountSubject(accountId: int)
    | EntitySubject(entityType: string, entityId: int)

  /**
   * The calling account as the call context reports it. `rootAdmin` is the
   * answer of the root-admin test and `accessible` the subjects on which the
   * access check passes; both are decided outside the service.
   */
  datatype Caller = Caller(accountId: int, domainId: int, rootAdmin: bool, accessible: set<Subject>)

  predicate CanAccess(caller: Caller, s: Subject) {
    s in caller.accessible
  }

  /**
   * An entity found by the entity manager: its owning account and, when the
   * entity carries one, its external identifier.
   */
  datatype Entity = Entity(ownerAccountId: int, uuid: Option<string>)

  function DigitChar(d: nat): (c: char)
    requires d < 10
    ensures '0' <= c <= '9'
  {
    ('0' as int + d) as char
  }

  /** Value of a decimal digit character. */
  function DigitValue(c: char): (d: nat)
    requires '0' <= c <= '9'
    ensures d < 10 && DigitChar(d) == c
  {
    c as int - '0' as int
  }

  /** Every character is a decimal digit. */
  predicate AllDigits(s: string) {
    forall i :: 0 <= i < |s| ==> '0' <= s[i] <= '9'
  }

  /** Decimal digits of a natural number, most significant first. */
  function Digits(n: nat): (s: string)
    ensures |s| >= 1 && AllDigits(s)
    decreases n
  {
    if n < 10 then [DigitChar(n)] else Digits(n / 10) + [DigitChar(n % 10)]
  }

  /** Decimal text of an id, with a leading '-' when it is negative. */
  function DecimalString(n: int): (s: string)
    ensures n >= 0 ==> s == Digits(n)
    ensures n < 0 ==> s == "-" + Digits(-n)
  {
    if n < 0 then "-" + Digits(-n) else Digits(n)
  }

  /** Reads a string of decimal digits back as a number, most significant digit first. */
  function ParseDigits(s: string): nat
    requires AllDigits(s)
    decreases |s|
  {
    if s == [] then 0 else ParseDigits(s[..|s| - 1]) * 10 + DigitValue(s[|s| - 1])
  }

  /** Reads the decimal text of an id back, with an optional leading '-'. */
  function ParseDecimal(s: string): Option<int> {
    if |s| > 0 && s[0] == '-' then
      (if s[1..] != [] && AllDigits(s[1..]) then Some(0 - ParseDigits(s[1..]) as int) else None)
    else if s != [] && AllDigits(s) then Some(ParseDigits(s))
    else None
  }

  /** The digits of a number read back as that number. */
  lemma {:induction false} DigitsRoundTrip(n: nat)
    ensures ParseDigits(Digits(n)) == n
    decreases n
  {
    if n >= 10 {
      var s := Digits(n);
      assert s[..|s| - 1] == Digits(n / 10);
      DigitsRoundTrip(n / 10);
    }
  }

  /** The decimal text of an id reads back as that id. */
  lemma DecimalStringRoundTrip(n: int)
    ensures ParseDecimal(DecimalString(n)) == Some(n)
  {
    var s := DecimalString(n);
    if n < 0 {
      var d := Digits(-n);
      DigitsRoundTrip(-n);
      assert s[0] == '-' && s[1..] == d;
      assert ParseDecimal(s) == Some(0 - ParseDigits(d) as int);
    } else {
      DigitsRoundTrip(n);
      assert s != [] && AllDigits(s) && '0' <= s[0];
    }
  }

  /** Distinct ids are stored under distinct decimal texts. */
  lemma DecimalStringInjective(n: int, m: int)
    ensures DecimalString(n) == DecimalString(m) ==> n == m
  {
    DecimalStringRoundTrip(n);
    DecimalStringRoundTrip(m);
  }

  /** The uuid stored with an entity permission: the entity's own, else the id's decimal text. */
  function EntityUuid(entity: Entity, entityId: int): (s: string)
    ensures entity.uuid.Some? ==> s == entity.uuid.value
    ensures entity.uuid.None? ==> s == DecimalString(entityId)
  {
    match entity.uuid
    case Some(u) => u
    case None => DecimalString(entityId)
  }

  /** Id of the platform's root domain. */
  const RootDomain: int := 1

  /** Name of the role granted dynamically to the owner of an entity. */
  const ResourceOwner: string := "RESOURCE_OWNER"

  /** Entity type tags for which entity permissions can be granted or revoked. */
  const EntityClassMap: set<string> := {"VirtualMachine", "Volume", "Template", "Snapshot"}

  /** The domain a role or group is created in: the given one, else the caller's own. */
  function TargetDomain(caller: Caller, domainId: Option<int>): (d: int)
    ensures domainId.Some? ==> d == domainId.value
    ensures domainId.None? ==> d == caller.domainId
  {
    match domainId
    case Some(id) => id
    case None => caller.domainId
  }

  /** The domain check of role and group creation: only a root admin may target a foreign domain. */
  predicate MayCreateIn(caller: Caller, domainId: int) {
    caller.rootAdmin || caller.domainId == domainId
  }

  /**
   * An entity without a uuid of its own is recorded under text that reads
   * back as its id, so two such entities never share a recorded uuid.
   */
  lemma EntityUuidIdentifies(e1: Entity, id1: int, e2: Entity, id2: int)
    requires e1.uuid.None?
    ensures ParseDecimal(EntityUuid(e1, id1)) == Some(id1)
    ensures e2.uuid.None? && EntityUuid(e1, id1) == EntityUuid(e2, id2) ==> id1 == id2
  {
    DecimalStringRoundTrip(id1);
    DecimalStringInjective(id1, id2);
  }

  /**
   * A caller that names no domain creates in its own domain and is never
   * refused on the domain; a caller that is not root admin can only ever
   * create in its own domain.
   */
  lemma CreationDomain(caller: Caller, domainId: Option<int>)
    ensures MayCreateIn(caller, TargetDomain(caller, None))
    ensures !caller.rootAdmin && MayCreateIn(caller, TargetDomain(caller, domainId)) ==>
            TargetDomain(caller, domainId) == caller.domainId
  {
  }
}
