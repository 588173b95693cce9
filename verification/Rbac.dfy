/**
 Row-level access decisions (src/rbac.rs): one policy, decided by four entry points.

 Membership is read from the database on every decision, and a read may fail; `Members` is the
 whole of `users::group::is_member`, given the user and the group name.
 */
module Rbac {
  import opened Wrappers
  import opened JsonValues

  type UserId = i64
  type Row = map<string, Json>

  datatype DbErr = DbErr

  type Members = (UserId, string) -> Result<bool, DbErr>

  datatype Policy = Public | OwnerOnly | Group(name: string) | AdminOnly

  /** The three declarations of an entity the decisions read. */
  datatype Access = Access(read: Policy, write: Policy, owner: Option<string>)

  const ADMIN_GROUP := "admin"

  function IsAdmin(members: Members, user: UserId): Result<bool, DbErr>
  {
    members(user, ADMIN_GROUP)
  }

  /** The verdict that needs no record; `Ok(None)` is "undecided without the record". */
  function StaticVerdict(members: Members, policy: Policy, user: UserId): Result<Option<bool>, DbErr>
  {
    if policy == Public then Ok(Some(true))
    else
      match IsAdmin(members, user)
      case Err(e) => Err(e)
      case Ok(true) => Ok(Some(true))
      case Ok(false) =>
        match policy
        case Public => Ok(Some(true))
        case AdminOnly => Ok(Some(false))
        case Group(name) =>
          (match members(user, name)
           case Err(e) => Err(e)
           case Ok(isMember) => Ok(Some(isMember)))
        case OwnerOnly => Ok(None)
  }

  /** The record's owner column holds this user's id; a null or absent owner belongs to nobody. */
  predicate Owns(column: string, user: UserId, record: Row)
  {
    column in record && record[column] == Int(user)
  }

  function Evaluate(members: Members, policy: Policy, owner: Option<string>, user: UserId, record: Row)
    : Result<bool, DbErr>
  {
    match StaticVerdict(members, policy, user)
    case Err(e) => Err(e)
    case Ok(Some(verdict)) => Ok(verdict)
    case Ok(None) =>
      match owner
      case None => Ok(false)
      case Some(column) => Ok(Owns(column, user, record))
  }

  function CanRead(members: Members, a: Access, user: UserId, record: Row): Result<bool, DbErr>
  {
    Evaluate(members, a.read, a.owner, user, record)
  }

  function CanWrite(members: Members, a: Access, user: UserId, record: Row): Result<bool, DbErr>
  {
    Evaluate(members, a.write, a.owner, user, record)
  }

  function CanCreate(members: Members, a: Access, user: UserId): Result<bool, DbErr>
  {
    match a.write
    case Public => Ok(true)
    case OwnerOnly => if a.owner.Some? then Ok(true) else IsAdmin(members, user)
    case AdminOnly => IsAdmin(members, user)
    case Group(name) =>
      match IsAdmin(members, user)
      case Err(e) => Err(e)
      case Ok(true) => Ok(true)
      case Ok(false) => members(user, name)
  }

  /** The restriction a list query carries. */
  datatype ListAccess = Unrestricted | FilterByOwner(column: string, user: UserId) | Forbidden

  function ListRestriction(members: Members, a: Access, user: UserId): Result<ListAccess, DbErr>
  {
    if a.read == Public then Ok(Unrestricted)
    else
      match IsAdmin(members, user)
      case Err(e) => Err(e)
      case Ok(true) => Ok(Unrestricted)
      case Ok(false) =>
        match a.read
        case Public => Ok(Unrestricted)
        case AdminOnly => Ok(Forbidden)
        case Group(name) =>
          (match members(user, name)
           case Err(e) => Err(e)
           case Ok(isMember) => Ok(if isMember then Unrestricted else Forbidden))
        case OwnerOnly =>
          match a.owner
          case Some(column) => Ok(FilterByOwner(column, user))
          case None => Ok(Forbidden)
  }

  /** SQL comparison with a constant: unknown on a null, so neither true nor false. */
  datatype Truth = True | False | Unknown

  function SqlEquals(record: Row, column: string, wanted: Json): Truth
  {
    if column !in record || record[column] == Null then Unknown
    else if record[column] == wanted then True else False
  }

  /** The rows a list query returns: those on which its WHERE clause is true. */
  predicate Admits(access: ListAccess, record: Row)
  {
    match access
    case Unrestricted => true
    case FilterByOwner(column, user) => SqlEquals(record, column, Int(user)) == True
    case Forbidden => false
  }

  // ---------------------------------------------------------------------------------------------
  // The rules
  // ---------------------------------------------------------------------------------------------

  /** Who may read a record: anybody when reading is public; an admin; for the others, a member of the
      named group, or the user whose id stands in the owner column. */
  lemma WhoMayRead(members: Members, a: Access, user: UserId, record: Row)
    ensures CanRead(members, a, user, record) == Ok(true) <==>
            || a.read == Public
            || members(user, "admin") == Ok(true)
            || (members(user, "admin") == Ok(false) && a.read.Group? && members(user, a.read.name) == Ok(true))
            || (members(user, "admin") == Ok(false) && a.read == OwnerOnly && a.owner.Some? &&
                a.owner.value in record && record[a.owner.value] == Int(user))
  {
  }

  /** Who may write one: the same, by the write policy. */
  lemma WhoMayWrite(members: Members, a: Access, user: UserId, record: Row)
    ensures CanWrite(members, a, user, record) == Ok(true) <==>
            || a.write == Public
            || members(user, "admin") == Ok(true)
            || (members(user, "admin") == Ok(false) && a.write.Group? && members(user, a.write.name) == Ok(true))
            || (members(user, "admin") == Ok(false) && a.write == OwnerOnly && a.owner.Some? &&
                a.owner.value in record && record[a.owner.value] == Int(user))
  {
  }

  /** Who may create one: anybody when writing is public, or the owner's own with an owner column; an
      admin; a member of the named group. */
  lemma WhoMayCreate(members: Members, a: Access, user: UserId)
    ensures CanCreate(members, a, user) == Ok(true) <==>
            || a.write == Public
            || (a.write == OwnerOnly && a.owner.Some?)
            || members(user, "admin") == Ok(true)
            || (members(user, "admin") == Ok(false) && a.write.Group? && members(user, a.write.name) == Ok(true))
  {
  }

  /** A verdict that needs no record is the one every record would get; there is none exactly when
      the owner decides. */
  lemma VerdictWithoutRecord(members: Members, policy: Policy, owner: Option<string>, user: UserId, record: Row)
    ensures var verdict := StaticVerdict(members, policy, user);
            && (verdict.Err? ==> Evaluate(members, policy, owner, user, record) == Err(verdict.error))
            && (verdict.Ok? && verdict.value.Some? ==>
                  Evaluate(members, policy, owner, user, record) == Ok(verdict.value.value))
            && (verdict == Ok(None) <==> policy == OwnerOnly && members(user, "admin") == Ok(false))
  {
  }

  /** A list is refused as a whole exactly when no record whatever could be read. */
  lemma ForbiddenListsAreUnreadable(members: Members, a: Access, user: UserId)
    ensures ListRestriction(members, a, user) == Ok(Forbidden) <==>
            forall record: Row :: CanRead(members, a, user, record) == Ok(false)
  {
    var own: Row := if a.owner.Some? then map[a.owner.value := Int(user)] else map[];
    forall record: Row ensures CanRead(members, a, user, record) == Ok(true) <==>
                               ListRestriction(members, a, user).Ok? &&
                               Admits(ListRestriction(members, a, user).value, record)
    {
      ListAgreesWithCanRead(members, a, user, record);
    }
    assert CanRead(members, a, user, own) == Ok(false) ==> ListRestriction(members, a, user) == Ok(Forbidden);
  }

  /** The list filter and the per-record decision agree on every row, null owners included, and
      they fail together: a list is refused by an error exactly when each of its rows would be. */
  lemma ListAgreesWithCanRead(members: Members, a: Access, user: UserId, record: Row)
    ensures CanRead(members, a, user, record) ==
            match ListRestriction(members, a, user)
            case Ok(access) => Ok(Admits(access, record))
            case Err(e) => Err(e)
  {
  }

  /** The record a creation by this user may leave: its owner column, when there is one, is
      forced to the creator. */
  predicate CreatedBy(a: Access, user: UserId, record: Row)
  {
    a.owner.Some? ==> Owns(a.owner.value, user, record)
  }

  /** The one case where `can_create` decides without a query that `can_write` must make. */
  predicate CreatesBlind(members: Members, a: Access, user: UserId)
  {
    a.write.OwnerOnly? && a.owner.Some? && members(user, "admin").Err?
  }

  /** A user may create exactly when the user may write whatever they create, unless the admin
      query fails on an OwnerOnly entity with an owner column: there `can_create` allows, without
      asking, what `can_write` answers by an error. */
  lemma CanCreateIsCanWriteOnOwn(members: Members, a: Access, user: UserId)
    ensures (CanCreate(members, a, user) == Ok(true)
             <==> forall record: Row | CreatedBy(a, user, record) :: CanWrite(members, a, user, record) == Ok(true))
            <==> !CreatesBlind(members, a, user)
    ensures forall record: Row | CreatedBy(a, user, record) && !CreatesBlind(members, a, user) ::
              CanCreate(members, a, user) == CanWrite(members, a, user, record)
  {
    var own: Row := if a.owner.Some? then map[a.owner.value := Int(user)] else map[];
    assert CreatedBy(a, user, own);
    forall record: Row | CreatedBy(a, user, record) && !CreatesBlind(members, a, user)
      ensures CanCreate(members, a, user) == CanWrite(members, a, user, record)
    {
    }
    if CreatesBlind(members, a, user) {
      assert CanWrite(members, a, user, own).Err?;
    } else {
      assert CanCreate(members, a, user) == CanWrite(members, a, user, own);
    }
  }

  /** The queries a decision on `policy` reaches fail: the admin query, or, for a non-admin, the
      group's own. */
  predicate QueryFails(members: Members, policy: Policy, user: UserId)
  {
    policy != Public &&
    (members(user, "admin").Err? ||
     (members(user, "admin") == Ok(false) && policy.Group? && members(user, policy.name).Err?))
  }

  /** A failed query is an error on every entry point and nothing else is: never an allow, never
      a deny. The creation of an owned record is the exception that makes no query at all. */
  lemma FailedQueriesAreErrors(members: Members, a: Access, user: UserId, record: Row)
    ensures CanRead(members, a, user, record).Err? <==> QueryFails(members, a.read, user)
    ensures CanWrite(members, a, user, record).Err? <==> QueryFails(members, a.write, user)
    ensures ListRestriction(members, a, user).Err? <==> QueryFails(members, a.read, user)
    ensures CanCreate(members, a, user).Err? <==>
            QueryFails(members, a.write, user) && !CreatesBlind(members, a, user)
  {
  }
}
