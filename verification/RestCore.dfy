/**
 The five operations on one entity's table (src/rest/core.rs), shared by REST, MCP and the agents.

 A row is the JSON object the model serialises to. Serde and the application's hooks are values
 of the entity: any decoding, any hook.
 */
module RestCore {
  import opened Wrappers
  import opened JsonValues
  import opened Rbac

  const I32_MIN := -0x8000_0000
  const I32_MAX := 0x7FFF_FFFF

  datatype RestError =
    | NotFound
    | RestForbidden
    | Application(message: string)
    | UniqueViolation
    | Database

  datatype Entity = Entity(
    columns: set<string>,
    pk: string,
    labelColumn: Option<string>,
    filterColumn: Option<string>,
    access: Access,
    unique: set<set<string>>,  // the columns of each UNIQUE constraint
    decode: Row -> Option<Row>,
    beforeCreate: (Row, string) -> Result<Row, string>,
    beforeUpdate: (Row, Row, string) -> Result<Row, string>,
    beforeDelete: (Row, string) -> Result<(), string>)

  /** The primary key is in no UNIQUE constraint, nor is it the owner column. */
  predicate WellFormed(e: Entity)
  {
    (forall key | key in e.unique :: e.pk !in key) && e.access.owner != Some(e.pk)
  }

  /** Rows in the order of their keys; the next key the database hands out is never one it has
      handed out before. */
  datatype Table = Table(rows: seq<Row>, next: nat)

  predicate HasId(e: Entity, row: Row, id: int)
  {
    e.pk in row && row[e.pk].Int? && row[e.pk].n == id
  }

  /** Every row carries a key already handed out, and the rows stand in the order of their keys; so
      no two rows have the same. */
  ghost predicate TableOk(e: Entity, t: Table)
  {
    && t.next <= I32_MAX + 1
    && (forall i | 0 <= i < |t.rows| ::
          e.pk in t.rows[i] && t.rows[i][e.pk].Int? && I32_MIN <= t.rows[i][e.pk].n < t.next)
    && (forall i, j | 0 <= i < j < |t.rows| :: t.rows[i][e.pk].n < t.rows[j][e.pk].n)
  }

  /** The position of a row by key. */
  function Find(e: Entity, rows: seq<Row>, id: int): (r: Option<nat>)
    ensures r.Some? ==> r.value < |rows| && HasId(e, rows[r.value], id)
    ensures r.None? ==> forall i | 0 <= i < |rows| :: !HasId(e, rows[i], id)
  {
    if rows == [] then None
    else if HasId(e, rows[0], id) then Some(0)
    else
      match Find(e, rows[1..], id)
      case None => None
      case Some(i) => Some(i + 1)
  }

  /** Two rows agree on all the columns of a constraint, none of them null; nulls never collide. */
  predicate AgreeOn(key: set<string>, a: Row, b: Row)
  {
    forall c | c in key :: c in a && c in b && a[c] == b[c] && a[c] != Null
  }

  /** Two rows that a UNIQUE constraint keeps apart. */
  predicate Collide(e: Entity, a: Row, b: Row)
  {
    exists key | key in e.unique :: AgreeOn(key, a, b)
  }

  predicate CollidesWithAny(e: Entity, rows: seq<Row>, row: Row)
  {
    exists i | 0 <= i < |rows| :: Collide(e, rows[i], row)
  }

  function Insert(e: Entity, t: Table, row: Row): Result<(Table, Row), RestError>
  {
    if CollidesWithAny(e, t.rows, row[e.pk := Null]) then Err(UniqueViolation)
    else if t.next > I32_MAX then Err(Database)
    else
      var stored := row[e.pk := Int(t.next)];
      Ok((Table(t.rows + [stored], t.next + 1), stored))
  }

  /** The row a creation asks the database to insert: the hook runs first, so the owner of the
      row is the creator whatever the body and the hook say; the key is the database's. */
  function NewRow(e: Entity, user: UserId, subject: string, model: Row): Result<Row, RestError>
  {
    match e.beforeCreate(model, subject)
    case Err(message) => Err(Application(message))
    case Ok(row) => Ok(if e.access.owner.Some? then row[e.access.owner.value := Int(user)] else row)
  }

  function Create(members: Members, e: Entity, user: UserId, subject: string, t: Table, model: Row)
    : Result<(Table, Row), RestError>
  {
    match CanCreate(members, e.access, user)
    case Err(_) => Err(Database)
    case Ok(false) => Err(RestForbidden)
    case Ok(true) =>
      match NewRow(e, user, subject, model)
      case Err(error) => Err(error)
      case Ok(row) => Insert(e, t, row)
  }

  /** The prefix of get, update and delete: a verdict that needs no row comes before any read of
      the table; the row is judged only when there was none. */
  function Reach(members: Members, e: Entity, policy: Policy, user: UserId, t: Table, id: int)
    : (r: Result<nat, RestError>)
    ensures r.Ok? ==> r.value < |t.rows| && HasId(e, t.rows[r.value], id)
  {
    match StaticVerdict(members, policy, user)
    case Err(_) => Err(Database)
    case Ok(verdict) =>
      if verdict == Some(false) then Err(RestForbidden)
      else
        match Find(e, t.rows, id)
        case None => Err(NotFound)
        case Some(i) =>
          if verdict.Some? then Ok(i)
          else
            match Evaluate(members, policy, e.access.owner, user, t.rows[i])
            case Err(_) => Err(Database)
            case Ok(false) => Err(RestForbidden)
            case Ok(true) => Ok(i)
  }

  function Get(members: Members, e: Entity, user: UserId, t: Table, id: int): Result<Row, RestError>
  {
    match Reach(members, e, e.access.read, user, t, id)
    case Err(error) => Err(error)
    case Ok(i) => Ok(t.rows[i])
  }

  /** The owner column of a row, null when nobody's. */
  function OwnerOf(e: Entity, row: Row): Json
    requires e.access.owner.Some?
  {
    if e.access.owner.value in row then row[e.access.owner.value] else Null
  }

  /** The row an update leaves: the path's key and the existing owner have the last word. */
  function UpdatedRow(e: Entity, subject: string, existing: Row, id: i64, model: Row): Result<Row, RestError>
  {
    match e.beforeUpdate(model, existing, subject)
    case Err(message) => Err(Application(message))
    case Ok(row) =>
      var keyed := row[e.pk := Int(id)];
      Ok(if e.access.owner.Some? then keyed[e.access.owner.value := OwnerOf(e, existing)] else keyed)
  }

  function Update(members: Members, e: Entity, user: UserId, subject: string, t: Table, id: i64, model: Row)
    : Result<(Table, Row), RestError>
  {
    match Reach(members, e, e.access.write, user, t, id)
    case Err(error) => Err(error)
    case Ok(i) =>
      match UpdatedRow(e, subject, t.rows[i], id, model)
      case Err(error) => Err(error)
      case Ok(row) =>
        if CollidesWithAny(e, t.rows[..i] + t.rows[i + 1..], row) then Err(Database)
        else Ok((t.(rows := t.rows[i := row]), row))
  }

  function Delete(members: Members, e: Entity, user: UserId, subject: string, t: Table, id: int)
    : Result<Table, RestError>
  {
    match Reach(members, e, e.access.write, user, t, id)
    case Err(error) => Err(error)
    case Ok(i) =>
      match e.beforeDelete(t.rows[i], subject)
      case Err(message) => Err(Application(message))
      case Ok(_) => Ok(t.(rows := t.rows[..i] + t.rows[i + 1..]))
  }

  function Select(access: ListAccess, rows: seq<Row>): (r: seq<Row>)
    ensures forall row :: row in r <==> row in rows && Admits(access, row)
  {
    if rows == [] then []
    else (if Admits(access, rows[0]) then [rows[0]] else []) + Select(access, rows[1..])
  }

  /** The rows a list query sees, before filter and pagination. */
  function Visible(members: Members, e: Entity, user: UserId, t: Table): Result<seq<Row>, RestError>
  {
    match ListRestriction(members, e.access, user)
    case Err(_) => Err(Database)
    case Ok(Forbidden) => Err(RestForbidden)
    case Ok(access) => Ok(Select(access, t.rows))
  }

  // ---------------------------------------------------------------------------------------------
  // What the operations leave
  // ---------------------------------------------------------------------------------------------

  /** The row holds what the hook left, on every column but the key and the owner's. */
  predicate Carries(e: Entity, hooked: Row, row: Row)
  {
    && row.Keys == hooked.Keys + {e.pk} + (if e.access.owner.Some? then {e.access.owner.value} else {})
    && forall k | k in hooked && k != e.pk && e.access.owner != Some(k) :: row[k] == hooked[k]
  }

  /** Each UNIQUE constraint has a column on which the rows differ or one of them is null. */
  predicate KeptApart(e: Entity, a: Row, b: Row)
  {
    forall key | key in e.unique :: exists c | c in key :: c !in a || c !in b || a[c] == Null || a[c] != b[c]
  }

  /** The table has one row more, last: the hook's, under the next key and the user's name. */
  predicate Inserted(e: Entity, user: UserId, hooked: Row, t: Table, t': Table, row: Row)
  {
    && t.next <= 0x7FFF_FFFF && t'.next == t.next + 1 && t'.rows == t.rows + [row]
    && Carries(e, hooked, row) && row[e.pk] == Int(t.next)
    && (e.access.owner.Some? ==> row[e.access.owner.value] == Int(user))
    && forall i | 0 <= i < |t.rows| :: KeptApart(e, t.rows[i], row)
  }

  /** Row `i`, which has the key, is replaced by the hook's, under its key and its owner; nothing else
      is changed. */
  predicate Replaced(e: Entity, hooked: Row, id: i64, t: Table, t': Table, i: nat, row: Row)
  {
    && i < |t.rows| == |t'.rows| && t'.next == t.next && t'.rows[i] == row
    && e.pk in t.rows[i] && t.rows[i][e.pk] == Int(id)
    && (forall j | 0 <= j < |t.rows| && j != i :: t'.rows[j] == t.rows[j] && KeptApart(e, t.rows[j], row))
    && Carries(e, hooked, row) && row[e.pk] == Int(id)
    && (e.access.owner.Some? ==>
          var column := e.access.owner.value;
          row[column] == if column in t.rows[i] then t.rows[i][column] else Null)
  }

  /** Row `i`, which has the key, is gone; the others stand as they stood. */
  predicate Removed(e: Entity, id: i64, t: Table, t': Table, i: nat)
  {
    && i < |t.rows| == |t'.rows| + 1 && t'.next == t.next
    && e.pk in t.rows[i] && t.rows[i][e.pk] == Int(id)
    && (forall j | 0 <= j < i :: t'.rows[j] == t.rows[j])
    && forall j | i <= j < |t'.rows| :: t'.rows[j] == t.rows[j + 1]
  }

  lemma CollideIsNotApart(e: Entity, a: Row, b: Row)
    ensures Collide(e, a, b) <==> !KeptApart(e, a, b)
  {
    forall key | key in e.unique
      ensures AgreeOn(key, a, b) <==> !exists c | c in key :: c !in a || c !in b || a[c] == Null || a[c] != b[c]
    {
      if !AgreeOn(key, a, b) {
        var c :| c in key && !(c in a && c in b && a[c] == b[c] && a[c] != Null);
        assert c in key && (c !in a || c !in b || a[c] == Null || a[c] != b[c]);
      }
    }
  }

  /** The key is in no constraint, so it keeps no rows apart. */
  lemma KeyIsNoMatter(e: Entity, a: Row, row: Row, key: Json)
    requires WellFormed(e)
    ensures Collide(e, a, row[e.pk := key]) <==> Collide(e, a, row)
  {
    forall k | k in e.unique ensures AgreeOn(k, a, row[e.pk := key]) <==> AgreeOn(k, a, row) {
    }
  }

  /** The hook's row under this owner: what the database would be asked to store. */
  function OwnedBy(e: Entity, hooked: Row, owner: Json): Row
  {
    if e.access.owner.Some? then hooked[e.access.owner.value := owner] else hooked
  }

  lemma InsertOrRefuse(e: Entity, t: Table, row: Row)
    requires WellFormed(e)
    ensures Insert(e, t, row) == Err(UniqueViolation) <==> exists i | 0 <= i < |t.rows| :: !KeptApart(e, t.rows[i], row)
    ensures Insert(e, t, row).Ok? ==> forall i | 0 <= i < |t.rows| :: KeptApart(e, t.rows[i], Insert(e, t, row).value.1)
  {
    forall i | 0 <= i < |t.rows| ensures Collide(e, t.rows[i], row[e.pk := Null]) <==> !KeptApart(e, t.rows[i], row) {
      KeyIsNoMatter(e, t.rows[i], row, Null);
      CollideIsNotApart(e, t.rows[i], row);
    }
    if Insert(e, t, row).Ok? {
      var stored := Insert(e, t, row).value.1;
      forall i | 0 <= i < |t.rows| ensures KeptApart(e, t.rows[i], stored) {
        KeyIsNoMatter(e, t.rows[i], row, Int(t.next));
        CollideIsNotApart(e, t.rows[i], stored);
      }
    }
  }

  /** A creation inserts the hook's row, for a user who may create, when no UNIQUE constraint is in
      the way; and each refusal has its one cause. */
  lemma CreateInserts(members: Members, e: Entity, user: UserId, subject: string, t: Table, model: Row)
    requires WellFormed(e)
    ensures var r, hooked := Create(members, e, user, subject, t, model), e.beforeCreate(model, subject);
            var may := CanCreate(members, e.access, user);
            && (r.Ok? ==> may == Ok(true) && hooked.Ok? && Inserted(e, user, hooked.value, t, r.value.0, r.value.1))
            && (r == Err(RestForbidden) <==> may == Ok(false))
            && (forall m :: r == Err(Application(m)) <==> may == Ok(true) && hooked == Err(m))
            && (r == Err(UniqueViolation) <==>
                  may == Ok(true) && hooked.Ok? &&
                  exists i | 0 <= i < |t.rows| :: !KeptApart(e, t.rows[i], OwnedBy(e, hooked.value, Int(user))))
            && (may.Err? ==> r == Err(Database)) && r != Err(NotFound)
  {
    var hooked := e.beforeCreate(model, subject);
    if CanCreate(members, e.access, user) == Ok(true) && hooked.Ok? {
      InsertOrRefuse(e, t, OwnedBy(e, hooked.value, Int(user)));
    }
  }

  /** The prefix of get, update and delete. A refusal that needs no row comes first, whether the row
      is there or not. */
  lemma ReachIsAllowed(members: Members, e: Entity, policy: Policy, user: UserId, t: Table, id: i64)
    requires TableOk(e, t)
    ensures var r, verdict := Reach(members, e, policy, user, t, id), StaticVerdict(members, policy, user);
            && (forall i: nat ::
                  r == Ok(i) <==>
                  i < |t.rows| && t.rows[i][e.pk] == Int(id) &&
                  Evaluate(members, policy, e.access.owner, user, t.rows[i]) == Ok(true))
            && (r == Err(NotFound) <==>
                  verdict.Ok? && verdict.value != Some(false) &&
                  forall i | 0 <= i < |t.rows| :: t.rows[i][e.pk] != Int(id))
            && (r == Err(RestForbidden) <==>
                  verdict == Ok(Some(false)) ||
                  exists i | 0 <= i < |t.rows| ::
                    t.rows[i][e.pk] == Int(id) &&
                    Evaluate(members, policy, e.access.owner, user, t.rows[i]) == Ok(false))
            && (r == Err(Database) <==> verdict.Err?)
  {
    forall i | 0 <= i < |t.rows| && t.rows[i][e.pk] == Int(id) ensures Find(e, t.rows, id) == Some(i) {
      FindUnique(e, t, i);
    }
    if Find(e, t.rows, id).None? {
      forall i | 0 <= i < |t.rows| ensures t.rows[i][e.pk] != Int(id) {
        assert !HasId(e, t.rows[i], id);
      }
    } else {
      var i := Find(e, t.rows, id).value;
      VerdictWithoutRecord(members, policy, e.access.owner, user, t.rows[i]);
    }
  }

  /** `get` answers the row of the key to a user who may read it, and nothing else. */
  lemma GetFinds(members: Members, e: Entity, user: UserId, t: Table, id: i64, row: Row)
    requires TableOk(e, t)
    ensures Get(members, e, user, t, id) == Ok(row) <==>
            row in t.rows && row[e.pk] == Int(id) && CanRead(members, e.access, user, row) == Ok(true)
  {
    ReachIsAllowed(members, e, e.access.read, user, t, id);
    if row in t.rows && row[e.pk] == Int(id) {
      var i: nat :| i < |t.rows| && t.rows[i] == row;
      FindUnique(e, t, i);
    }
  }

  /** An update replaces the row of the key by the hook's, for a user who may write it. */
  lemma UpdateReplaces(members: Members, e: Entity, user: UserId, subject: string, t: Table, id: i64, model: Row)
    returns (i: nat)
    requires WellFormed(e) && Update(members, e, user, subject, t, id, model).Ok?
    ensures i < |t.rows| && CanWrite(members, e.access, user, t.rows[i]) == Ok(true)
    ensures var (t', row) := Update(members, e, user, subject, t, id, model).value;
            && e.beforeUpdate(model, t.rows[i], subject).Ok?
            && Replaced(e, e.beforeUpdate(model, t.rows[i], subject).value, id, t, t', i, row)
  {
    i := Reach(members, e, e.access.write, user, t, id).value;
    VerdictWithoutRecord(members, e.access.write, e.access.owner, user, t.rows[i]);
    var (t', row) := Update(members, e, user, subject, t, id, model).value;
    OthersAreApart(e, t, i, row);
  }

  lemma OthersAreApart(e: Entity, t: Table, i: nat, row: Row)
    requires i < |t.rows|
    ensures CollidesWithAny(e, t.rows[..i] + t.rows[i + 1..], row) <==>
            exists j | 0 <= j < |t.rows| && j != i :: !KeptApart(e, t.rows[j], row)
  {
    var others := t.rows[..i] + t.rows[i + 1..];
    forall j | 0 <= j < |t.rows| ensures Collide(e, t.rows[j], row) <==> !KeptApart(e, t.rows[j], row) {
      CollideIsNotApart(e, t.rows[j], row);
    }
    forall j | 0 <= j < |t.rows| && j != i && !KeptApart(e, t.rows[j], row) ensures CollidesWithAny(e, others, row) {
      assert others[if j < i then j else j - 1] == t.rows[j];
    }
    forall k | 0 <= k < |others| && Collide(e, others[k], row)
      ensures exists j | 0 <= j < |t.rows| && j != i :: !KeptApart(e, t.rows[j], row)
    {
      var j := if k < i then k else k + 1;
      assert t.rows[j] == others[k];
    }
  }

  /** A deletion removes the row of the key, for a user who may write it, when its hook agrees. */
  lemma DeleteRemoves(members: Members, e: Entity, user: UserId, subject: string, t: Table, id: i64)
    returns (i: nat)
    requires Delete(members, e, user, subject, t, id).Ok?
    ensures i < |t.rows| && CanWrite(members, e.access, user, t.rows[i]) == Ok(true)
    ensures e.beforeDelete(t.rows[i], subject).Ok?
    ensures Removed(e, id, t, Delete(members, e, user, subject, t, id).value, i)
  {
    i := Reach(members, e, e.access.write, user, t, id).value;
    VerdictWithoutRecord(members, e.access.write, e.access.owner, user, t.rows[i]);
  }

  /** The rows left are exactly those with another key. */
  lemma RemovedLeavesTheRest(e: Entity, id: i64, t: Table, t': Table, i: nat, row: Row)
    requires TableOk(e, t) && Removed(e, id, t, t', i)
    ensures row in t'.rows <==> row in t.rows && row[e.pk] != Int(id)
  {
    if row in t'.rows {
      var j :| 0 <= j < |t'.rows| && t'.rows[j] == row;
      assert t.rows[if j < i then j else j + 1] == row;
    }
    if row in t.rows && row[e.pk] != Int(id) {
      var j :| 0 <= j < |t.rows| && t.rows[j] == row;
      assert t'.rows[if j < i then j else j - 1] == row;
    }
  }

  /** When update and delete refuse: as their prefix does, by their hook, or, for an update, when a
      UNIQUE constraint is in the way. */
  lemma WritesRefuse(members: Members, e: Entity, user: UserId, subject: string, t: Table, id: i64, model: Row)
    requires WellFormed(e)
    ensures var reach := Reach(members, e, e.access.write, user, t, id);
            var u, d := Update(members, e, user, subject, t, id, model), Delete(members, e, user, subject, t, id);
            && (reach.Err? ==> u == Err(reach.error) && d == Err(reach.error))
            && (reach.Ok? ==>
                  var hooked := e.beforeUpdate(model, t.rows[reach.value], subject);
                  && (forall m :: u == Err(Application(m)) <==> hooked == Err(m))
                  && (forall m :: d == Err(Application(m)) <==> e.beforeDelete(t.rows[reach.value], subject) == Err(m))
                  && (u == Err(Database) <==>
                        hooked.Ok? &&
                        var owner := if e.access.owner.Some? then OwnerOf(e, t.rows[reach.value]) else Null;
                        exists j | 0 <= j < |t.rows| && j != reach.value ::
                          !KeptApart(e, t.rows[j], OwnedBy(e, hooked.value, owner)))
                  && (u.Err? ==> u == Err(Database) || u.error.Application?)
                  && (d.Err? ==> d.error.Application?))
  {
    var reach := Reach(members, e, e.access.write, user, t, id);
    if reach.Ok? && e.beforeUpdate(model, t.rows[reach.value], subject).Ok? {
      var row := UpdatedRow(e, subject, t.rows[reach.value], id, model).value;
      var owner := if e.access.owner.Some? then OwnerOf(e, t.rows[reach.value]) else Null;
      var owned := OwnedBy(e, e.beforeUpdate(model, t.rows[reach.value], subject).value, owner);
      assert row == owned[e.pk := Int(id)];
      OthersAreApart(e, t, reach.value, row);
      forall j | 0 <= j < |t.rows| ensures KeptApart(e, t.rows[j], row) <==> KeptApart(e, t.rows[j], owned) {
        KeyIsNoMatter(e, t.rows[j], owned, Int(id));
        CollideIsNotApart(e, t.rows[j], row);
        CollideIsNotApart(e, t.rows[j], owned);
      }
    }
  }

  // ---------------------------------------------------------------------------------------------
  // Properties
  // ---------------------------------------------------------------------------------------------

  lemma FindUnique(e: Entity, t: Table, i: nat)
    requires TableOk(e, t) && i < |t.rows|
    ensures Find(e, t.rows, t.rows[i][e.pk].n) == Some(i)
  {
    assert HasId(e, t.rows[i], t.rows[i][e.pk].n);
  }

  /** Listing and fetching one by one show the same rows: a row is in the list exactly when
      `get` on its key returns it, and a list that errs is one where every `get` of an existing
      row errs. */
  lemma ListIsEveryGet(members: Members, e: Entity, user: UserId, t: Table, i: nat)
    requires TableOk(e, t) && i < |t.rows|
    ensures var row := t.rows[i];
            Get(members, e, user, t, row[e.pk].n) == Ok(row)
            <==> (Visible(members, e, user, t).Ok? && row in Visible(members, e, user, t).value)
    ensures Visible(members, e, user, t).Err? ==>
              Get(members, e, user, t, t.rows[i][e.pk].n) == Err(Visible(members, e, user, t).error)
  {
    FindUnique(e, t, i);
    ListAgreesWithCanRead(members, e.access, user, t.rows[i]);
  }

  /** What the operations keep: keys stay distinct and below the counter, and the counter never
      goes back, so a key is never handed out twice. */
  lemma CreateKeepsKeys(members: Members, e: Entity, user: UserId, subject: string, t: Table, model: Row)
    requires WellFormed(e) && TableOk(e, t)
    ensures var r := Create(members, e, user, subject, t, model);
            r.Ok? ==> TableOk(e, r.value.0) && r.value.0.next == t.next + 1 && r.value.1[e.pk] == Int(t.next)
  {
  }

  lemma UpdateKeepsKeys(members: Members, e: Entity, user: UserId, subject: string, t: Table, id: i64, model: Row)
    requires WellFormed(e) && TableOk(e, t)
    ensures var r := Update(members, e, user, subject, t, id, model);
            r.Ok? ==> TableOk(e, r.value.0) && r.value.0.next == t.next
  {
    var u := Update(members, e, user, subject, t, id, model);
    if u.Ok? {
      var i := Reach(members, e, e.access.write, user, t, id).value;
      assert u.value.0.rows == t.rows[i := u.value.1];
      assert u.value.1[e.pk] == t.rows[i][e.pk];
    }
  }

  lemma RemovalKeepsKeys(e: Entity, t: Table, i: nat)
    requires TableOk(e, t) && i < |t.rows|
    ensures var t' := t.(rows := t.rows[..i] + t.rows[i + 1..]);
            TableOk(e, t') && Find(e, t'.rows, t.rows[i][e.pk].n).None?
  {
    var rest := t.rows[..i] + t.rows[i + 1..];
    assert forall k | 0 <= k < i :: rest[k] == t.rows[k];
    assert forall k | i <= k < |rest| :: rest[k] == t.rows[k + 1];
  }

  lemma DeleteKeepsKeys(members: Members, e: Entity, user: UserId, subject: string, t: Table, id: i64)
    requires WellFormed(e) && TableOk(e, t)
    ensures var r := Delete(members, e, user, subject, t, id);
            r.Ok? ==> TableOk(e, r.value) && r.value.next == t.next && Find(e, r.value.rows, id).None?
  {
    if Delete(members, e, user, subject, t, id).Ok? {
      RemovalKeepsKeys(e, t, Reach(members, e, e.access.write, user, t, id).value);
    }
  }

  /** The owner of a row is whoever created it, for good: neither body nor hook can choose it at
      creation, or give, move or take it by an update; and the key of an update is the path's. */
  lemma OwnerIsTheCreator(members: Members, e: Entity, user: UserId, subject: string, t: Table, id: i64, model: Row)
    requires WellFormed(e) && e.access.owner.Some?
    ensures var r := Create(members, e, user, subject, t, model);
            r.Ok? ==> Owns(e.access.owner.value, user, r.value.1)
    ensures var r := Update(members, e, user, subject, t, id, model);
            r.Ok? ==>
              var existing := t.rows[Reach(members, e, e.access.write, user, t, id).value];
              HasId(e, existing, id) && HasId(e, r.value.1, id) && OwnerOf(e, r.value.1) == OwnerOf(e, existing)
  {
  }
}
