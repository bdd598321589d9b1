/** What a rule match says of the headers, told from the columns' names (backend/agent/column_registry.py). */
module ColumnMatches {
  import opened ColumnIndex
  import opened ColumnRegistry
  import opened Results

  /** Some column of the schema goes by this header. */
  ghost predicate Known(schema: Schema, h: Header) {
    exists c :: c in schema && GoesBy(Normal, c, h) && c.canonical != NO_NAME
  }

  ghost function KnownOf(schema: Schema, headers: seq<Header>): set<Header> {
    set h | h in headers && Known(schema, h)
  }

  function CountIn(known: set<Header>, headers: seq<Header>, n: nat): nat
    requires n <= |headers|
  {
    if n == 0 then 0 else CountIn(known, headers, n - 1) + if headers[n - 1] in known then 1 else 0
  }

  /** The headers that are not known, in order. */
  function Strangers(known: set<Header>, headers: seq<Header>, n: nat): seq<Header>
    requires n <= |headers|
  {
    if n == 0 then []
    else Strangers(known, headers, n - 1) + if headers[n - 1] in known then [] else [headers[n - 1]]
  }

  /** What a header is mapped to. */
  ghost predicate Means(schema: Schema, h: Header, meaning: Header) {
    if Known(schema, h)
    then exists c :: c in schema && GoesBy(Normal, c, h) && c.canonical != NO_NAME && meaning == c.canonical
    else meaning == Header("unknown")
  }

  predicate IsShare(q: real, part: nat, all: nat) {
    if all == 0 then q == 0.0 else q == part as real / all as real
  }

  /**
   The match of some headers with a schema: the headers and nothing else are mapped, each to the column that goes
   by it; the others are listed; and the confidence is the share of the known ones.
   */
  ghost predicate MatchOf(schema: Schema, headers: seq<Header>, m: Match) {
    var known := KnownOf(schema, headers);
    && (forall h :: h in m.mappings <==> h in headers)
    && (forall h | h in m.mappings :: Means(schema, h, m.mappings[h]))
    && m.unrecognized == Strangers(known, headers, |headers|)
    && IsShare(m.confidence, CountIn(known, headers, |headers|), |headers|)
  }

  lemma KnownExactly(schema: Schema, index: Index, h: Header)
    requires SchemaIndex(Normal, schema, false) == Ok(index)
    ensures Knows(index, Normal(h)) <==> Known(schema, h)
    ensures Means(schema, h, Meaning(index, Normal(h)))
  {
    SchemaIndexIsExact(Normal, schema);
  }

  ghost predicate KnownAre(index: Index, headers: seq<Header>, names: seq<Header>, known: set<Header>) {
    |names| == |headers| && forall i | 0 <= i < |headers| :: Knows(index, names[i]) <==> headers[i] in known
  }

  lemma KnownAreOf(schema: Schema, index: Index, headers: seq<Header>)
    requires SchemaIndex(Normal, schema, false) == Ok(index)
    ensures KnownAre(index, headers, NormalAll(headers, |headers|), KnownOf(schema, headers))
  {
    forall i | 0 <= i < |headers| ensures Knows(index, Normal(headers[i])) <==> headers[i] in KnownOf(schema, headers) {
      KnownExactly(schema, index, headers[i]);
    }
  }

  lemma {:induction false} CountsExactly(index: Index, headers: seq<Header>, names: seq<Header>, known: set<Header>,
                                         n: nat)
    requires KnownAre(index, headers, names, known) && n <= |headers|
    ensures Matched(index, names, n) == CountIn(known, headers, n)
    ensures Unrecognized(index, headers, names, n) == Strangers(known, headers, n)
  {
    if n > 0 {
      CountsExactly(index, headers, names, known, n - 1);
    }
  }

  lemma MapsExactly(schema: Schema, index: Index, headers: seq<Header>, mappings: map<Header, Header>)
    requires SchemaIndex(Normal, schema, false) == Ok(index)
    requires Maps(index, headers, NormalAll(headers, |headers|), mappings, |headers|)
    ensures forall h :: h in mappings <==> h in headers
    ensures forall h | h in mappings :: Means(schema, h, mappings[h])
  {
    forall h | h in mappings ensures Means(schema, h, mappings[h]) {
      var i :| 0 <= i < |headers| && headers[i] == h;
      KnownExactly(schema, index, h);
      assert NormalAll(headers, |headers|)[i] == Normal(h);
    }
  }

  /** Outside test mode, a match tells of every header by which column it goes, and how many headers are known. */
  lemma MatchExactly(schema: Schema, index: Index, headers: seq<Header>, m: Match)
    requires SchemaIndex(Normal, schema, false) == Ok(index)
    requires IsMatch(m, index, headers, NormalAll(headers, |headers|))
    ensures MatchOf(schema, headers, m)
  {
    KnownAreOf(schema, index, headers);
    CountsExactly(index, headers, NormalAll(headers, |headers|), KnownOf(schema, headers), |headers|);
    MapsExactly(schema, index, headers, m.mappings);
  }

  lemma {:induction false} KnownAndStrangers(known: set<Header>, headers: seq<Header>, n: nat)
    requires n <= |headers|
    ensures CountIn(known, headers, n) + |Strangers(known, headers, n)| == n
  {
    if n > 0 {
      KnownAndStrangers(known, headers, n - 1);
    }
  }

  lemma Share(q: real, part: nat, all: nat)
    requires IsShare(q, part, all) && part <= all
    ensures 0.0 <= q <= 1.0 && (q == 1.0 <==> part == all > 0)
  {
  }

  /** The confidence lies between 0 and 1, and is 1 exactly when there are headers and all of them are known. */
  lemma ConfidenceExactly(schema: Schema, headers: seq<Header>, m: Match)
    requires MatchOf(schema, headers, m)
    ensures 0.0 <= m.confidence <= 1.0
    ensures m.confidence == 1.0 <==> headers != [] && m.unrecognized == []
  {
    var known := KnownOf(schema, headers);
    KnownAndStrangers(known, headers, |headers|);
    Share(m.confidence, CountIn(known, headers, |headers|), |headers|);
  }
}
