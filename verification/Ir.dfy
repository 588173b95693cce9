/**
 The intermediate representation of the entities, and the registry that resolves their references
 once all are known (src/ir.rs).
 */
module Ir {
  import opened Wrappers
  import Rbac

  datatype RelationType = HasOne | HasMany

  datatype Identity = Unary(column: string) | Composite(columns: seq<string>)

  datatype TableRef = Table(name: string) | OtherRef

  datatype RelationDef = RelationDef(relType: RelationType, isOwner: bool, fromCol: Identity, toTbl: TableRef)

  datatype ColumnDef = ColumnDef(name: string, nullable: bool)

  datatype Settings = Settings(access: Rbac.Access, filterColumn: Option<string>, labelColumn: Option<string>)

  /** What an entity type declares. */
  datatype Declaration = Declaration(
    resourceName: string,
    tableName: string,
    columns: seq<ColumnDef>,
    primaryKey: seq<string>,
    relations: seq<RelationDef>,
    settings: Settings)

  datatype FieldIr = FieldIr(name: string, nullable: bool, isPrimaryKey: bool, references: Option<string>)

  datatype EntityIr = EntityIr(resourceName: string, fields: seq<FieldIr>, settings: Settings)

  function ResolveReferenceTable(def: RelationDef, column: string): Option<string>
  {
    if def.relType != HasOne || def.isOwner then None
    else
      match def.fromCol
      case Composite(_) => None
      case Unary(from) =>
        if from != column then None
        else
          match def.toTbl
          case Table(name) => Some(name)
          case OtherRef => None
  }

  /** The first relation that gives the column a table. */
  function RawReference(relations: seq<RelationDef>, column: string): Option<string>
  {
    if relations == [] then None
    else
      var first := ResolveReferenceTable(relations[0], column);
      if first.Some? then first else RawReference(relations[1..], column)
  }

  /** `references` still holds the name of a table. */
  function ResourceIr(d: Declaration): EntityIr
  {
    EntityIr(
      d.resourceName,
      seq(|d.columns|, i requires 0 <= i < |d.columns| =>
        FieldIr(d.columns[i].name, d.columns[i].nullable, d.columns[i].name in d.primaryKey,
                RawReference(d.relations, d.columns[i].name))),
      d.settings)
  }

  type TableNames = seq<(string, string)>

  /** The resource under the first pair with the table. */
  function Lookup(names: TableNames, table: string): Option<string>
  {
    if names == [] then None
    else if names[0].0 == table then Some(names[0].1)
    else Lookup(names[1..], table)
  }

  function ResolveField(names: TableNames, field: FieldIr): FieldIr
  {
    field.(references := match field.references case None => None case Some(table) => Lookup(names, table))
  }

  function ResolveEntity(names: TableNames, entity: EntityIr): EntityIr
  {
    entity.(fields := seq(|entity.fields|,
                          i requires 0 <= i < |entity.fields| => ResolveField(names, entity.fields[i])))
  }

  function NamesOf(ds: seq<Declaration>): TableNames
  {
    seq(|ds|, i requires 0 <= i < |ds| => (ds[i].tableName, ds[i].resourceName))
  }

  function IrsOf(ds: seq<Declaration>): seq<EntityIr>
  {
    seq(|ds|, i requires 0 <= i < |ds| => ResourceIr(ds[i]))
  }

  /** What the registry writes out after registering `ds`. */
  function Output(ds: seq<Declaration>): seq<EntityIr>
  {
    seq(|ds|, i requires 0 <= i < |ds| => ResolveEntity(NamesOf(ds), ResourceIr(ds[i])))
  }

  datatype Refusal = DuplicateResource(name: string) | DuplicateTable(table: string)

  /** Resource names pair with tables one to one. */
  predicate OneToOne(ds: seq<Declaration>)
  {
    forall i, j | 0 <= i < j < |ds| :: ds[i].resourceName != ds[j].resourceName && ds[i].tableName != ds[j].tableName
  }

  // ---------------------------------------------------------------------------------------------
  // The registry
  // ---------------------------------------------------------------------------------------------

  class IrRegistry {
    var entities: seq<EntityIr>
    var tableNames: TableNames
    ghost var registered: seq<Declaration>

    /** The two vectors are aligned: at each position, the same registered entity. */
    ghost predicate Valid()
      reads this
    {
      entities == IrsOf(registered) && tableNames == NamesOf(registered) && OneToOne(registered)
    }

    constructor ()
      ensures Valid() && registered == []
    {
      entities, tableNames, registered := [], [], [];
    }

    /** A refusal is a panic at start-up; it comes before either vector is touched. */
    method Register(d: Declaration) returns (refused: Option<Refusal>)
      requires Valid()
      modifies this
      ensures Valid()
      ensures refused.None? <==> OneToOne(old(registered) + [d])
      ensures registered == if refused.None? then old(registered) + [d] else old(registered)
      ensures refused.Some? ==> refused.value in {DuplicateResource(d.resourceName), DuplicateTable(d.tableName)}
      ensures refused == Some(DuplicateResource(d.resourceName)) <==>
              exists i | 0 <= i < |old(registered)| :: old(registered)[i].resourceName == d.resourceName
    {
      if exists i | 0 <= i < |entities| :: entities[i].resourceName == d.resourceName {
        ghost var i :| 0 <= i < |entities| && entities[i].resourceName == d.resourceName;
        assert (registered + [d])[i].resourceName == (registered + [d])[|registered|].resourceName;
        return Some(DuplicateResource(d.resourceName));
      }
      assert forall i | 0 <= i < |registered| :: entities[i].resourceName == registered[i].resourceName;
      if exists i | 0 <= i < |tableNames| :: tableNames[i].0 == d.tableName {
        ghost var i :| 0 <= i < |tableNames| && tableNames[i].0 == d.tableName;
        assert (registered + [d])[i].tableName == (registered + [d])[|registered|].tableName;
        return Some(DuplicateTable(d.tableName));
      }
      assert forall i | 0 <= i < |registered| :: tableNames[i].0 == registered[i].tableName;
      tableNames := tableNames + [(d.tableName, d.resourceName)];
      entities := entities + [ResourceIr(d)];
      registered := registered + [d];
      refused := None;
    }

    /** Works on copies: the registry itself keeps the names of tables. */
    method ResolvedEntities() returns (resolved: seq<EntityIr>)
      requires Valid()
      ensures resolved == Output(registered)
    {
      resolved := [];
      for i := 0 to |entities|
        invariant resolved == Output(registered)[..i]
      {
        var entity := entities[i];
        for k := 0 to |entity.fields|
          invariant |entity.fields| == |entities[i].fields| && entity == entities[i].(fields := entity.fields)
          invariant entity.fields[..k] == ResolveEntity(tableNames, entities[i]).fields[..k]
          invariant entity.fields[k..] == entities[i].fields[k..]
        {
          var field := entity.fields[k];
          assert field == entities[i].fields[k] by {
            assert field == entity.fields[k..][0];
          }
          var references := match field.references case None => None case Some(table) => Lookup(tableNames, table);
          entity := entity.(fields := entity.fields[k := field.(references := references)]);
        }
        assert entity == ResolveEntity(tableNames, entities[i]);
        resolved := resolved + [entity];
      }
    }
  }

  // ---------------------------------------------------------------------------------------------
  // What a reference is
  // ---------------------------------------------------------------------------------------------

  /** A scalar `belongs_to` carried by the column: the library marks it as not owning. */
  predicate BelongsTo(def: RelationDef, column: string, table: string)
  {
    def == RelationDef(HasOne, false, Unary(column), Table(table))
  }

  /** A column refers to a table exactly when its first `belongs_to` does: inverse, to-many and
      composite relations never count, wherever they stand. */
  lemma {:induction false} RawReferenceIsBelongsTo(relations: seq<RelationDef>, column: string, table: string)
    ensures RawReference(relations, column) == Some(table) <==>
            exists k | 0 <= k < |relations| ::
              && BelongsTo(relations[k], column, table)
              && forall j | 0 <= j < k :: forall t :: !BelongsTo(relations[j], column, t)
    decreases |relations|
  {
    if relations != [] {
      var rest := relations[1..];
      RawReferenceIsBelongsTo(rest, column, table);
      var first := ResolveReferenceTable(relations[0], column);
      if first.Some? {
        assert BelongsTo(relations[0], column, first.value);
      } else if RawReference(rest, column) == Some(table) {
        var k :| 0 <= k < |rest| && BelongsTo(rest[k], column, table) &&
          forall j | 0 <= j < k :: forall t :: !BelongsTo(rest[j], column, t);
        assert BelongsTo(relations[k + 1], column, table);
        forall j | 0 <= j < k + 1 ensures forall t :: !BelongsTo(relations[j], column, t) {
          if j > 0 {
            assert relations[j] == rest[j - 1];
          }
        }
      } else if exists k | 0 <= k < |relations| ::
                  BelongsTo(relations[k], column, table) &&
                  forall j | 0 <= j < k :: forall t :: !BelongsTo(relations[j], column, t)
      {
        var k :| 0 <= k < |relations| && BelongsTo(relations[k], column, table) &&
          forall j | 0 <= j < k :: forall t :: !BelongsTo(relations[j], column, t);
        assert BelongsTo(rest[k - 1], column, table);
        forall j | 0 <= j < k - 1 ensures forall t :: !BelongsTo(rest[j], column, t) {
          assert rest[j] == relations[j + 1];
        }
      }
    }
  }

  /** Looking a table up finds the registered entity that owns it, and only that one. */
  lemma {:induction false} LookupIsOwnership(ds: seq<Declaration>, table: string, name: string)
    requires OneToOne(ds)
    ensures Lookup(NamesOf(ds), table) == Some(name) <==>
            exists j | 0 <= j < |ds| :: ds[j].tableName == table && ds[j].resourceName == name
    decreases |ds|
  {
    if ds != [] {
      var rest := ds[1..];
      assert NamesOf(ds)[1..] == NamesOf(rest);
      LookupIsOwnership(rest, table, name);
      if exists j | 0 <= j < |rest| :: rest[j].tableName == table && rest[j].resourceName == name {
        var j :| 0 <= j < |rest| && rest[j].tableName == table && rest[j].resourceName == name;
        assert ds[j + 1] == rest[j];
      }
      if exists j | 0 < j < |ds| :: ds[j].tableName == table && ds[j].resourceName == name {
        var j :| 0 < j < |ds| && ds[j].tableName == table && ds[j].resourceName == name;
        assert rest[j - 1] == ds[j];
      }
    }
  }

  /** A field of the output refers to a resource exactly when a registered entity of that name owns
      the table of the field's first `belongs_to`; nothing else of the entity is changed. */
  lemma ReferenceIsOwnership(ds: seq<Declaration>, i: nat, k: nat, name: string)
    requires OneToOne(ds) && i < |ds| && k < |ds[i].columns|
    ensures var entity, column := Output(ds)[i], ds[i].columns[k];
            && entity.resourceName == ds[i].resourceName && entity.settings == ds[i].settings
            && |entity.fields| == |ds[i].columns|
            && entity.fields[k].(references := None) ==
               FieldIr(column.name, column.nullable, column.name in ds[i].primaryKey, None)
            && (entity.fields[k].references == Some(name) <==>
                exists j | 0 <= j < |ds| ::
                  && ds[j].resourceName == name
                  && RawReference(ds[i].relations, column.name) == Some(ds[j].tableName))
  {
    var raw := RawReference(ds[i].relations, ds[i].columns[k].name);
    if raw.Some? {
      LookupIsOwnership(ds, raw.value, name);
    }
  }

  /** Every reference of the output names exactly one entity of the output. */
  lemma ReferencesAreClosed(ds: seq<Declaration>, i: nat, k: nat)
    requires OneToOne(ds) && i < |ds| && k < |ds[i].columns| && Output(ds)[i].fields[k].references.Some?
    ensures var name := Output(ds)[i].fields[k].references.value;
            exists j | 0 <= j < |ds| ::
              && Output(ds)[j].resourceName == name
              && forall l | 0 <= l < |ds| && l != j :: Output(ds)[l].resourceName != name
  {
    var name := Output(ds)[i].fields[k].references.value;
    ReferenceIsOwnership(ds, i, k, name);
    var j :| 0 <= j < |ds| && ds[j].resourceName == name;
    assert Output(ds)[j].resourceName == name;
    forall l | 0 <= l < |ds| && l != j ensures Output(ds)[l].resourceName != name {
    }
  }

  // ---------------------------------------------------------------------------------------------
  // Order of registration
  // ---------------------------------------------------------------------------------------------

  lemma SameDeclarations(a: seq<Declaration>, b: seq<Declaration>, d: Declaration)
    requires multiset(a) == multiset(b)
    ensures d in a <==> d in b
  {
    assert d in a <==> d in multiset(a);
    assert d in b <==> d in multiset(b);
  }

  lemma LookupIgnoresOrder(a: seq<Declaration>, b: seq<Declaration>, table: string)
    requires OneToOne(a) && OneToOne(b) && multiset(a) == multiset(b)
    ensures Lookup(NamesOf(a), table) == Lookup(NamesOf(b), table)
  {
    forall name ensures Lookup(NamesOf(a), table) == Some(name) <==> Lookup(NamesOf(b), table) == Some(name) {
      LookupIsOwnership(a, table, name);
      LookupIsOwnership(b, table, name);
      forall j | 0 <= j < |a| ensures a[j] in b { SameDeclarations(a, b, a[j]); }
      forall j | 0 <= j < |b| ensures b[j] in a { SameDeclarations(a, b, b[j]); }
    }
    if Lookup(NamesOf(a), table).Some? {
      assert Lookup(NamesOf(b), table) == Some(Lookup(NamesOf(a), table).value);
    }
  }

  lemma EntityIgnoresOrder(a: seq<Declaration>, b: seq<Declaration>, d: Declaration)
    requires OneToOne(a) && OneToOne(b) && multiset(a) == multiset(b)
    ensures ResolveEntity(NamesOf(a), ResourceIr(d)) == ResolveEntity(NamesOf(b), ResourceIr(d))
  {
    var fields := ResourceIr(d).fields;
    forall k | 0 <= k < |fields| ensures ResolveField(NamesOf(a), fields[k]) == ResolveField(NamesOf(b), fields[k]) {
      if fields[k].references.Some? {
        LookupIgnoresOrder(a, b, fields[k].references.value);
      }
    }
  }

  /** The output under a given list of names. */
  function OutputUnder(names: TableNames, ds: seq<Declaration>): seq<EntityIr>
  {
    if ds == [] then [] else OutputUnder(names, ds[..|ds| - 1]) + [ResolveEntity(names, ResourceIr(ds[|ds| - 1]))]
  }

  lemma {:induction false} OutputsAreUnder(names: TableNames, ds: seq<Declaration>)
    ensures |OutputUnder(names, ds)| == |ds|
    ensures forall i | 0 <= i < |ds| :: OutputUnder(names, ds)[i] == ResolveEntity(names, ResourceIr(ds[i]))
    decreases |ds|
  {
    if ds != [] {
      OutputsAreUnder(names, ds[..|ds| - 1]);
    }
  }

  lemma {:induction false} UnderAppend(names: TableNames, a: seq<Declaration>, b: seq<Declaration>)
    ensures OutputUnder(names, a + b) == OutputUnder(names, a) + OutputUnder(names, b)
    decreases |b|
  {
    if b == [] {
      assert a + b == a;
    } else {
      assert (a + b)[..|a + b| - 1] == a + b[..|b| - 1];
      UnderAppend(names, a, b[..|b| - 1]);
    }
  }

  lemma UnderMoved(names: TableNames, left: seq<Declaration>, d: Declaration, right: seq<Declaration>)
    ensures multiset(OutputUnder(names, left + [d] + right)) ==
            multiset(OutputUnder(names, left + right)) + multiset{ResolveEntity(names, ResourceIr(d))}
  {
    UnderAppend(names, left, right);
    UnderAppend(names, left, [d]);
    UnderAppend(names, left + [d], right);
    assert [d][..0] == [];
    assert OutputUnder(names, [d]) == [ResolveEntity(names, ResourceIr(d))];
  }

  lemma TakenOut(a: seq<Declaration>, left: seq<Declaration>, d: Declaration, right: seq<Declaration>)
    requires multiset(a + [d]) == multiset(left + [d] + right)
    ensures multiset(a) == multiset(left + right)
  {
    assert multiset(a) == multiset(a + [d]) - multiset{d};
    assert multiset(left + right) == multiset(left + [d] + right) - multiset{d};
  }

  lemma {:induction false} UnderIgnoresOrder(names: TableNames, a: seq<Declaration>, b: seq<Declaration>)
    requires multiset(a) == multiset(b)
    ensures multiset(OutputUnder(names, a)) == multiset(OutputUnder(names, b))
    decreases |a|
  {
    assert |a| == |multiset(a)| == |multiset(b)| == |b|;
    if a != [] {
      var init, d := a[..|a| - 1], a[|a| - 1];
      assert a == init + [d];
      SameDeclarations(a, b, d);
      var i :| 0 <= i < |b| && b[i] == d;
      assert b == b[..i] + [d] + b[i + 1..];
      TakenOut(init, b[..i], d, b[i + 1..]);
      UnderIgnoresOrder(names, init, b[..i] + b[i + 1..]);
      UnderMoved(names, b[..i], d, b[i + 1..]);
    }
  }

  /** The order of registration does not matter: any order of the same entities is accepted when one
      is, every entity comes out resolved the same, and the outputs hold the same entities. */
  lemma OrderDoesNotMatter(a: seq<Declaration>, b: seq<Declaration>)
    requires OneToOne(a) && multiset(a) == multiset(b)
    ensures OneToOne(b)
    ensures forall i, j | 0 <= i < |a| && 0 <= j < |b| && a[i] == b[j] :: Output(a)[i] == Output(b)[j]
    ensures multiset(Output(a)) == multiset(Output(b))
  {
    PermutedOneToOne(a, b);
    forall d ensures ResolveEntity(NamesOf(a), ResourceIr(d)) == ResolveEntity(NamesOf(b), ResourceIr(d)) {
      EntityIgnoresOrder(a, b, d);
    }
    UnderIgnoresOrder(NamesOf(a), a, b);
    OutputsAreUnder(NamesOf(a), a);
    OutputsAreUnder(NamesOf(a), b);
    assert OutputUnder(NamesOf(a), a) == Output(a);
    assert OutputUnder(NamesOf(a), b) == Output(b);
  }

  /** Two places of a list with one declaration count it twice. */
  lemma TwiceInMultiset(ds: seq<Declaration>, i: nat, j: nat)
    requires i < j < |ds| && ds[i] == ds[j]
    ensures multiset(ds)[ds[i]] >= 2
  {
    assert ds == ds[..j] + [ds[j]] + ds[j + 1..];
    assert ds[i] in ds[..j];
  }

  lemma {:induction false} OnceInMultiset(ds: seq<Declaration>, d: Declaration)
    requires OneToOne(ds)
    ensures multiset(ds)[d] <= 1
    decreases |ds|
  {
    if ds != [] {
      var init := ds[..|ds| - 1];
      assert ds == init + [ds[|ds| - 1]];
      OnceInMultiset(init, d);
      if d in init {
        var i :| 0 <= i < |init| && init[i] == d;
        assert ds[i].tableName != ds[|ds| - 1].tableName;
      }
    }
  }

  lemma PermutedOneToOne(a: seq<Declaration>, b: seq<Declaration>)
    requires OneToOne(a) && multiset(a) == multiset(b)
    ensures OneToOne(b)
  {
    forall i, j | 0 <= i < j < |b|
      ensures b[i].resourceName != b[j].resourceName && b[i].tableName != b[j].tableName
    {
      OnceInMultiset(a, b[i]);
      if b[i] == b[j] {
        TwiceInMultiset(b, i, j);
      }
      SameDeclarations(a, b, b[i]);
      SameDeclarations(a, b, b[j]);
      var k :| 0 <= k < |a| && a[k] == b[i];
      var l :| 0 <= l < |a| && a[l] == b[j];
      assert k != l;
    }
  }

  /** Registering more entities changes no reference already resolved; it can only resolve one that
      was not, and does so exactly when a later entity owns the table. */
  lemma LaterRegistrationsOnlyResolve(ds: seq<Declaration>, more: seq<Declaration>, i: nat, k: nat)
    requires OneToOne(ds + more) && i < |ds| && k < |ds[i].columns|
    ensures var before, after := Output(ds)[i].fields[k], Output(ds + more)[i].fields[k];
            && (before.references.Some? ==> after == before)
            && (before.references.None? ==>
                  (after.references.Some? <==>
                   exists j | 0 <= j < |more| ::
                     RawReference(ds[i].relations, ds[i].columns[k].name) == Some(more[j].tableName)))
  {
    var all := ds + more;
    assert forall j | 0 <= j < |ds| :: all[j] == ds[j];
    assert OneToOne(ds);
    var raw := RawReference(ds[i].relations, ds[i].columns[k].name);
    if raw.Some? {
      LookupAppend(NamesOf(ds), NamesOf(more), raw.value);
      assert NamesOf(all) == NamesOf(ds) + NamesOf(more);
      LookupFindsOwners(more, raw.value);
    }
  }

  lemma {:induction false} LookupAppend(a: TableNames, b: TableNames, table: string)
    ensures Lookup(a + b, table) == if Lookup(a, table).Some? then Lookup(a, table) else Lookup(b, table)
    decreases |a|
  {
    if a == [] {
      assert a + b == b;
    } else {
      assert (a + b)[1..] == a[1..] + b;
      LookupAppend(a[1..], b, table);
    }
  }

  lemma {:induction false} LookupFindsOwners(ds: seq<Declaration>, table: string)
    ensures Lookup(NamesOf(ds), table).Some? <==> exists j | 0 <= j < |ds| :: ds[j].tableName == table
    decreases |ds|
  {
    if ds != [] {
      var rest := ds[1..];
      assert NamesOf(ds)[1..] == NamesOf(rest);
      LookupFindsOwners(rest, table);
      if exists j | 0 < j < |ds| :: ds[j].tableName == table {
        var j :| 0 < j < |ds| && ds[j].tableName == table;
        assert rest[j - 1] == ds[j];
      }
      if exists j | 0 <= j < |rest| :: rest[j].tableName == table {
        var j :| 0 <= j < |rest| && rest[j].tableName == table;
        assert ds[j + 1] == rest[j];
      }
    }
  }
}
