/** What registering schemas and columns does to the registry, whatever the normal form of headers. */
module ColumnRegistrations {
  import opened ColumnIndex
  import opened Results

  datatype SchemaKey = SchemaKey(text: string)

  datatype Registry = Registry(schemas: map<SchemaKey, Schema>, indexes: map<SchemaKey, Index>)

  datatype Registration = NewSchema(key: SchemaKey, schema: Schema) | NewColumn(key: SchemaKey, column: Column)

  predicate HasColumn(schema: Schema, canonical: Header) {
    exists i :: 0 <= i < |schema| && schema[i].canonical == canonical
  }

  /** Assigning a dictionary entry: an existing key keeps its place. */
  function SetColumn(schema: Schema, c: Column): Schema {
    if schema == [] then [c]
    else if schema[0].canonical == c.canonical then [c] + schema[1..]
    else [schema[0]] + SetColumn(schema[1..], c)
  }

  function Register(norm: NormalForm, s: Registry, r: Registration, testMode: bool): Result<Registry, Error> {
    match r
    case NewSchema(key, schema) =>
      if key in s.schemas && !testMode then Err(NameCollision)
      else Store(s, key, schema, SchemaIndex(norm, schema, testMode))
    case NewColumn(key, column) =>
      if key !in s.schemas then Err(UnknownSchema)
      else if HasColumn(s.schemas[key], column.canonical) && !testMode then Err(NameCollision)
      else
        var schema := SetColumn(s.schemas[key], column);
        Store(s, key, schema, SchemaIndex(norm, schema, testMode))
  }

  function Store(s: Registry, key: SchemaKey, schema: Schema, index: Result<Index, Error>): Result<Registry, Error> {
    if index.Err? then Err(index.error)
    else Ok(Registry(s.schemas[key := schema], s.indexes[key := index.value]))
  }

  function After(norm: NormalForm, s: Registry, r: Registration, testMode: bool): Registry {
    var t := Register(norm, s, r, testMode);
    if t.Ok? then t.value else s
  }

  /** The registry after the registrations, outside test mode. */
  function RegisterAll(norm: NormalForm, s: Registry, rs: seq<Registration>): Registry {
    if rs == [] then s else After(norm, RegisterAll(norm, s, rs[..|rs| - 1]), rs[|rs| - 1], false)
  }

  /** Every stored index is the one rebuilt from the schema. */
  ghost predicate Rebuilt(norm: NormalForm, s: Registry, testMode: bool) {
    && s.indexes.Keys == s.schemas.Keys
    && forall key | key in s.schemas :: SchemaIndex(norm, s.schemas[key], testMode) == Ok(s.indexes[key])
  }

  ghost predicate Fresh(norm: NormalForm, s: Registry) {
    Rebuilt(norm, s, false)
  }

  /** Whatever `s` knows, `t` knows in the same way. */
  ghost predicate Keeps(s: Registry, t: Registry) {
    forall key, name | key in s.indexes && name in s.indexes[key] ::
      key in t.indexes && name in t.indexes[key] && t.indexes[key][name] == s.indexes[key][name]
  }

  lemma {:induction false} SetNewColumn(schema: Schema, c: Column)
    requires !HasColumn(schema, c.canonical)
    ensures SetColumn(schema, c) == schema + [c]
  {
    if schema != [] {
      assert forall i | 0 <= i < |schema[1..]| :: schema[1..][i] == schema[i + 1];
      SetNewColumn(schema[1..], c);
    }
  }

  lemma AmbiguousWith(norm: NormalForm, schema: Schema, index: Index, c: Column, n: Header)
    requires IsIndexOf(norm, index, schema) && !HasColumn(schema, c.canonical)
    requires n in NamesOf(c) && norm(n) in index
    ensures !Unambiguous(norm, schema + [c])
  {
    var d :| d in schema && IsClaimOf(norm, d, Claim(norm(n), index[norm(n)]));
    assert GoesBy(norm, d, n) && GoesBy(norm, c, n);
    assert d in schema + [c] && c in schema + [c] && d.canonical != c.canonical;
  }

  lemma UnambiguousWith(norm: NormalForm, schema: Schema, index: Index, c: Column)
    requires IsIndexOf(norm, index, schema) && Unambiguous(norm, schema)
    requires forall n | n in NamesOf(c) :: norm(n) !in index
    ensures Unambiguous(norm, schema + [c])
  {
  }

  /** Outside test mode, a column is accepted exactly when the schema exists, has no such column, and
      knows none of its names. */
  lemma NewColumnExactly(norm: NormalForm, s: Registry, key: SchemaKey, c: Column)
    requires Fresh(norm, s)
    ensures Register(norm, s, NewColumn(key, c), false).Ok?
       <==> && key in s.schemas && !HasColumn(s.schemas[key], c.canonical)
            && forall n | n in NamesOf(c) :: norm(n) !in s.indexes[key]
  {
    if key in s.schemas && !HasColumn(s.schemas[key], c.canonical) {
      var schema, index := s.schemas[key], s.indexes[key];
      SetNewColumn(schema, c);
      SchemaIndexIsExact(norm, schema);
      SchemaIndexIsExact(norm, schema + [c]);
      UnambiguousExactly(norm, schema, index, c);
    }
  }

  lemma UnambiguousExactly(norm: NormalForm, schema: Schema, index: Index, c: Column)
    requires IsIndexOf(norm, index, schema) && Unambiguous(norm, schema) && !HasColumn(schema, c.canonical)
    ensures Unambiguous(norm, schema + [c]) <==> forall n | n in NamesOf(c) :: norm(n) !in index
  {
    if forall n | n in NamesOf(c) :: norm(n) !in index {
      UnambiguousWith(norm, schema, index, c);
    } else {
      var n :| n in NamesOf(c) && norm(n) in index;
      AmbiguousWith(norm, schema, index, c, n);
    }
  }

  lemma NewSchemaExactly(norm: NormalForm, s: Registry, key: SchemaKey, schema: Schema)
    ensures Register(norm, s, NewSchema(key, schema), false).Ok? <==> key !in s.schemas && Unambiguous(norm, schema)
  {
    SchemaIndexIsExact(norm, schema);
  }

  lemma MoreColumnsKeep(norm: NormalForm, schema: Schema, c: Column, index: Index, more: Index, name: Header)
    requires IsIndexOf(norm, index, schema) && IsIndexOf(norm, more, schema + [c])
    requires name in index
    ensures name in more && more[name] == index[name]
  {
    var d :| d in schema && IsClaimOf(norm, d, Claim(name, index[name]));
    var n :| n in NamesOf(d) && norm(n) == name;
    assert d in schema + [c] && GoesBy(norm, d, n);
  }

  /** A registration outside test mode keeps the indexes fresh and never changes what a known header means. */
  lemma RegistrationKeeps(norm: NormalForm, s: Registry, r: Registration)
    requires Fresh(norm, s)
    ensures Fresh(norm, After(norm, s, r, false))
    ensures Keeps(s, After(norm, s, r, false))
  {
    var t := After(norm, s, r, false);
    if Register(norm, s, r, false).Ok? && r.NewColumn? {
      var schema, index, more := s.schemas[r.key], s.indexes[r.key], t.indexes[r.key];
      SetNewColumn(schema, r.column);
      SchemaIndexIsExact(norm, schema);
      SchemaIndexIsExact(norm, schema + [r.column]);
      forall key, name | key in s.indexes && name in s.indexes[key]
        ensures key in t.indexes && name in t.indexes[key] && t.indexes[key][name] == s.indexes[key][name]
      {
        if key == r.key {
          MoreColumnsKeep(norm, schema, r.column, index, more, name);
        }
      }
    }
  }

  lemma {:induction false} EveryRunKeeps(norm: NormalForm, s: Registry, rs: seq<Registration>)
    requires Fresh(norm, s)
    ensures Fresh(norm, RegisterAll(norm, s, rs))
    ensures Keeps(s, RegisterAll(norm, s, rs))
  {
    if rs != [] {
      EveryRunKeeps(norm, s, rs[..|rs| - 1]);
      RegistrationKeeps(norm, RegisterAll(norm, s, rs[..|rs| - 1]), rs[|rs| - 1]);
      KeepsTransitive(s, RegisterAll(norm, s, rs[..|rs| - 1]), RegisterAll(norm, s, rs));
    }
  }

  lemma KeepsTransitive(s: Registry, t: Registry, u: Registry)
    requires Keeps(s, t) && Keeps(t, u)
    ensures Keeps(s, u)
  {
  }

  /** Once registered, a column is found under each of its names, however many registrations follow. */
  lemma RegisteredIsFound(norm: NormalForm, s: Registry, key: SchemaKey, c: Column, rs: seq<Registration>,
                          header: Header)
    requires Fresh(norm, s) && Register(norm, s, NewColumn(key, c), false).Ok? && GoesBy(norm, c, header)
    ensures
      var t := RegisterAll(norm, After(norm, s, NewColumn(key, c), false), rs);
      key in t.indexes && norm(header) in t.indexes[key] && t.indexes[key][norm(header)] == c.canonical
  {
    var t := After(norm, s, NewColumn(key, c), false);
    RegistrationKeeps(norm, s, NewColumn(key, c));
    EveryRunKeeps(norm, t, rs);
    SetNewColumn(s.schemas[key], c);
    SchemaIndexIsExact(norm, t.schemas[key]);
    assert c in t.schemas[key] && norm(header) in t.indexes[key];
  }
}
