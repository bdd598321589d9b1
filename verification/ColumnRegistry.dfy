/** The column registry and its rule-based detection (backend/agent/column_registry.py). */
module ColumnRegistry {
  import opened ColumnIndex
  import opened ColumnNames
  import opened ColumnRegistrations
  import opened Results

  const UNKNOWN := Header("unknown")
  const NO_NAME := Header("")

  function Normal(h: Header): Header {
    Header(Normalise(h.text))
  }

  /** The best schema for some headers. */
  datatype Match = Match(key: SchemaKey, mappings: map<Header, Header>, unrecognized: seq<Header>, confidence: real)

  /** An empty canonical name counts as no name. */
  predicate Knows(index: Index, name: Header) {
    name in index && index[name] != NO_NAME
  }

  function NormalAll(headers: seq<Header>, n: nat): (r: seq<Header>)
    requires n <= |headers|
    ensures |r| == n && forall i | 0 <= i < n :: r[i] == Normal(headers[i])
  {
    seq(n, i requires 0 <= i < n => Normal(headers[i]))
  }

  /** How many of the first `n` names the index knows. */
  function Matched(index: Index, names: seq<Header>, n: nat): nat
    requires n <= |names|
  {
    if n == 0 then 0 else Matched(index, names, n - 1) + if Knows(index, names[n - 1]) then 1 else 0
  }

  function Confidence(index: Index, names: seq<Header>): real {
    if names == [] then 0.0 else Matched(index, names, |names|) as real / |names| as real
  }

  /** The headers the index does not know, in order. */
  function Unrecognized(index: Index, headers: seq<Header>, names: seq<Header>, n: nat): seq<Header>
    requires n <= |headers| == |names|
  {
    if n == 0 then []
    else Unrecognized(index, headers, names, n - 1) + if Knows(index, names[n - 1]) then [] else [headers[n - 1]]
  }

  function Meaning(index: Index, name: Header): Header {
    if Knows(index, name) then index[name] else UNKNOWN
  }

  ghost predicate Maps(index: Index, headers: seq<Header>, names: seq<Header>, mappings: map<Header, Header>, n: nat)
    requires n <= |headers| == |names|
  {
    && (forall i | 0 <= i < n :: headers[i] in mappings && mappings[headers[i]] == Meaning(index, names[i]))
    && mappings.Keys == set i | 0 <= i < n :: headers[i]
  }

  /** Equal headers have equal normal forms. */
  ghost predicate Consistent(headers: seq<Header>, names: seq<Header>) {
    && |names| == |headers|
    && forall i, j | 0 <= i < |headers| && 0 <= j < |headers| && headers[i] == headers[j] :: names[i] == names[j]
  }

  lemma MapsNext(index: Index, headers: seq<Header>, names: seq<Header>, mappings: map<Header, Header>, n: nat)
    requires n < |headers| && Consistent(headers, names) && Maps(index, headers, names, mappings, n)
    ensures Maps(index, headers, names, mappings[headers[n] := Meaning(index, names[n])], n + 1)
  {
  }

  method MatchHeaders(index: Index, headers: seq<Header>, names: seq<Header>)
    returns (mappings: map<Header, Header>, unrecognized: seq<Header>, matched: nat)
    requires Consistent(headers, names)
    ensures Maps(index, headers, names, mappings, |headers|)
    ensures matched == Matched(index, names, |names|)
    ensures unrecognized == Unrecognized(index, headers, names, |headers|)
  {
    mappings, unrecognized, matched := map[], [], 0;
    for i := 0 to |headers|
      invariant Maps(index, headers, names, mappings, i)
      invariant matched == Matched(index, names, i)
      invariant unrecognized == Unrecognized(index, headers, names, i)
    {
      MapsNext(index, headers, names, mappings, i);
      if Knows(index, names[i]) {
        mappings := mappings[headers[i] := index[names[i]]];
        matched := matched + 1;
      } else {
        mappings := mappings[headers[i] := UNKNOWN];
        unrecognized := unrecognized + [headers[i]];
      }
    }
  }

  method BuildAll(norm: NormalForm, order: seq<SchemaKey>, schemas: map<SchemaKey, Schema>, testMode: bool)
    returns (r: Result<map<SchemaKey, Index>, Error>)
    requires forall key :: key in order <==> key in schemas
    ensures r.Ok? ==> Rebuilt(norm, Registry(schemas, r.value), testMode)
    ensures r.Err? ==> exists key :: key in schemas && SchemaIndex(norm, schemas[key], testMode).Err?
  {
    var built: map<SchemaKey, Index> := map[];
    for i := 0 to |order|
      invariant forall j | 0 <= j < i :: order[j] in built
      invariant forall key | key in built ::
                  key in schemas && SchemaIndex(norm, schemas[key], testMode) == Ok(built[key])
    {
      var key := order[i];
      assert key in order;
      var index := BuildAliasIndex(norm, schemas[key], testMode);
      if index.Err? { return Err(NameCollision); }
      built := built[key := index.value];
    }
    assert forall key | key in schemas :: key in order;
    assert built.Keys == schemas.Keys;
    r := Ok(built);
  }

  ghost predicate AllUnambiguous(norm: NormalForm, schemas: map<SchemaKey, Schema>) {
    forall key | key in schemas :: Unambiguous(norm, schemas[key])
  }

  lemma AllIndexed(norm: NormalForm, schemas: map<SchemaKey, Schema>, testMode: bool)
    ensures testMode || AllUnambiguous(norm, schemas)
       <==> forall key | key in schemas :: SchemaIndex(norm, schemas[key], testMode).Ok?
  {
    forall key | key in schemas
      ensures testMode || Unambiguous(norm, schemas[key]) <==> SchemaIndex(norm, schemas[key], testMode).Ok?
    {
      SchemaIndexIsExact(norm, schemas[key]);
      TestModeAccepts(norm, schemas[key], |schemas[key]|);
    }
  }

  class ColumnRegistry {
    /** The schema keys, in the order of their registration. */
    var order: seq<SchemaKey>
    var schemas: map<SchemaKey, Schema>
    var indexes: map<SchemaKey, Index>

    ghost predicate Valid()
      reads this
    {
      forall key :: key in order <==> key in schemas
    }

    function State(): Registry
      reads this
    {
      Registry(schemas, indexes)
    }

    constructor ()
      ensures Valid() && State() == Registry(map[], map[])
    {
      order, schemas, indexes := [], map[], map[];
    }

    method RegisterSchema(key: SchemaKey, schema: Schema, testMode: bool) returns (ok: bool)
      requires Valid()
      modifies this
      ensures Valid()
      ensures State() == After(Normal, old(State()), NewSchema(key, schema), testMode)
      ensures ok == Register(Normal, old(State()), NewSchema(key, schema), testMode).Ok?
      ensures order == if key in old(schemas) || !ok then old(order) else old(order) + [key]
    {
      if key in schemas && !testMode { return false; }
      var index := BuildAliasIndex(Normal, schema, testMode);
      if index.Err? { return false; }
      if key !in schemas { order := order + [key]; }
      schemas := schemas[key := schema];
      indexes := indexes[key := index.value];
      ok := true;
    }

    method RegisterColumn(key: SchemaKey, c: Column, testMode: bool) returns (r: Result<Column, Error>)
      requires Valid()
      modifies this`schemas, this`indexes
      ensures Valid()
      ensures State() == After(Normal, old(State()), NewColumn(key, c), testMode)
      ensures r.Ok? == Register(Normal, old(State()), NewColumn(key, c), testMode).Ok?
      ensures r.Ok? ==> r.value == c
      ensures r.Err? ==> r.error == Register(Normal, old(State()), NewColumn(key, c), testMode).error
    {
      if key !in schemas { return Err(UnknownSchema); }
      if HasColumn(schemas[key], c.canonical) && !testMode { return Err(NameCollision); }
      var candidate := SetColumn(schemas[key], c);
      var index := BuildAliasIndex(Normal, candidate, testMode);
      if index.Err? { return Err(index.error); }
      schemas := schemas[key := candidate];
      indexes := indexes[key := index.value];
      r := Ok(c);
    }

    /** Rebuilds every index, or changes nothing when a schema is ambiguous; test mode refuses none. */
    method ValidateRegistry(testMode: bool) returns (ok: bool)
      requires Valid()
      modifies this`indexes
      ensures ok <==> testMode || AllUnambiguous(Normal, schemas)
      ensures if ok then Rebuilt(Normal, State(), testMode) else indexes == old(indexes)
    {
      AllIndexed(Normal, schemas, testMode);
      var built := BuildAll(Normal, order, schemas, testMode);
      ok := built.Ok?;
      if ok { indexes := built.value; }
    }

    /** The first schema that knows the largest part of the headers, if that is at least half. */
    method TryRuleMatch(headers: seq<Header>, testMode: bool) returns (r: Result<Option<Match>, Error>)
      requires Valid()
      modifies this`indexes
      ensures r.Ok? <==> testMode || AllUnambiguous(Normal, schemas)
      ensures r.Err? ==> indexes == old(indexes)
      ensures r.Ok? ==> Rebuilt(Normal, State(), testMode)
                        && IsBest(r.value, order, indexes, headers, NormalAll(headers, |headers|))
    {
      var ok := ValidateRegistry(testMode);
      if !ok { return Err(NameCollision); }
      var best := BestMatch(order, indexes, headers, NormalAll(headers, |headers|));
      r := Ok(best);
    }
  }

  ghost predicate IsMatch(m: Match, index: Index, headers: seq<Header>, names: seq<Header>)
    requires |headers| == |names|
  {
    && m.confidence == Confidence(index, names)
    && Maps(index, headers, names, m.mappings, |headers|)
    && m.unrecognized == Unrecognized(index, headers, names, |headers|)
  }

  /** No schema before the `i`-th is as good as it, and none of the first `n` is better. */
  ghost predicate IsFirstBest(order: seq<SchemaKey>, indexes: map<SchemaKey, Index>, names: seq<Header>, i: int, n: nat)
    requires n <= |order| && forall key | key in order :: key in indexes
  {
    && 0 <= i < n
    && (forall j | 0 <= j < i :: Confidence(indexes[order[j]], names) < Confidence(indexes[order[i]], names))
    && (forall j | 0 <= j < n :: Confidence(indexes[order[j]], names) <= Confidence(indexes[order[i]], names))
  }

  ghost predicate IsBest(best: Option<Match>, order: seq<SchemaKey>, indexes: map<SchemaKey, Index>,
      headers: seq<Header>, names: seq<Header>)
    requires |headers| == |names| && forall key | key in order :: key in indexes
  {
    match best
    case None => forall j | 0 <= j < |order| :: Confidence(indexes[order[j]], names) < 0.5
    case Some(m) =>
      && m.key in order && m.confidence >= 0.5
      && IsMatch(m, indexes[m.key], headers, names)
      && exists i :: IsFirstBest(order, indexes, names, i, |order|) && order[i] == m.key
  }

  method BestMatch(order: seq<SchemaKey>, indexes: map<SchemaKey, Index>, headers: seq<Header>, names: seq<Header>)
    returns (r: Option<Match>)
    requires Consistent(headers, names) && forall key | key in order :: key in indexes
    ensures IsBest(r, order, indexes, headers, names)
  {
    var best: Option<Match>, bestConfidence := None, 0.0;
    ghost var at := -1;
    for i := 0 to |order|
      invariant best.None? ==> bestConfidence == 0.0
      invariant best.None? ==> forall j | 0 <= j < i :: Confidence(indexes[order[j]], names) <= 0.0
      invariant best.Some? ==> IsFirstBest(order, indexes, names, at, i) && order[at] == best.value.key
      invariant best.Some? ==> IsMatch(best.value, indexes[order[at]], headers, names)
      invariant best.Some? ==> best.value.confidence == bestConfidence
    {
      assert order[i] in order;
      var mappings, unrecognized, matched := MatchHeaders(indexes[order[i]], headers, names);
      var confidence := if headers == [] then 0.0 else matched as real / |headers| as real;
      assert confidence == Confidence(indexes[order[i]], names);
      if confidence > bestConfidence {
        bestConfidence := confidence;
        best, at := Some(Match(order[i], mappings, unrecognized, confidence)), i;
      }
    }
    r := if best.Some? && bestConfidence >= 0.5 then best else None;
  }

  /** In a match outside test mode, a header that a column of the schema goes by is mapped to that column. */
  lemma MatchIsByName(schema: Schema, index: Index, headers: seq<Header>, m: Match, c: Column, i: nat)
    requires SchemaIndex(Normal, schema, false) == Ok(index)
    requires IsMatch(m, index, headers, NormalAll(headers, |headers|))
    requires c in schema && i < |headers| && GoesBy(Normal, c, headers[i]) && c.canonical != NO_NAME
    ensures headers[i] in m.mappings && m.mappings[headers[i]] == c.canonical
  {
    SchemaIndexIsExact(Normal, schema);
    assert Normal(headers[i]) in index;
    var names := NormalAll(headers, |headers|);
    assert m.mappings[headers[i]] == Meaning(index, names[i]);
  }
}
