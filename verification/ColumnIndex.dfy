/**
 The lookup index of one column schema (backend/agent/column_registry.py), for any way `norm` of
 bringing headers to a normal form.
 */
module ColumnIndex {
  import opened Results

  /** A column name or alias. */
  datatype Header = Header(text: string)

  /** A column of a schema: its canonical name and the other headers it goes by. */
  datatype Column = Column(canonical: Header, aliases: seq<Header>)

  type NormalForm = Header -> Header

  datatype Error = NameCollision | UnknownSchema

  /** That `name`, already normalised, stands for the column `canonical`. */
  datatype Claim = Claim(name: Header, canonical: Header)

  type Schema = seq<Column>
  type Index = map<Header, Header>

  function NamesOf(c: Column): seq<Header> {
    [c.canonical] + c.aliases
  }

  function ClaimOf(norm: NormalForm, canonical: Header, name: Header): Claim {
    Claim(norm(name), canonical)
  }

  function Enter(index: Result<Index, Error>, c: Claim, testMode: bool): Result<Index, Error> {
    if index.Err? then index
    else if c.name in index.value && index.value[c.name] != c.canonical && !testMode then Err(NameCollision)
    else Ok(index.value[c.name := c.canonical])
  }

  /** Enters the first `n` names of a column, in order. */
  function EnterNames(norm: NormalForm, index: Result<Index, Error>, canonical: Header, names: seq<Header>, n: nat,
                      testMode: bool)
    : Result<Index, Error>
    requires n <= |names|
  {
    if n == 0 then index
    else
      var before := EnterNames(norm, index, canonical, names, n - 1, testMode);
      Enter(before, ClaimOf(norm, canonical, names[n - 1]), testMode)
  }

  function EnterColumn(norm: NormalForm, index: Result<Index, Error>, c: Column, testMode: bool): Result<Index, Error> {
    EnterNames(norm, index, c.canonical, NamesOf(c), |NamesOf(c)|, testMode)
  }

  /** The index of the first `n` columns. */
  function IndexUpTo(norm: NormalForm, schema: Schema, n: nat, testMode: bool): Result<Index, Error>
    requires n <= |schema|
  {
    if n == 0 then Ok(map[]) else EnterColumn(norm, IndexUpTo(norm, schema, n - 1, testMode), schema[n - 1], testMode)
  }

  function SchemaIndex(norm: NormalForm, schema: Schema, testMode: bool): Result<Index, Error> {
    IndexUpTo(norm, schema, |schema|, testMode)
  }

  /** `c` goes by `header`, whatever its case, spacing and underscores. */
  ghost predicate GoesBy(norm: NormalForm, c: Column, header: Header) {
    exists n :: n in NamesOf(c) && norm(n) == norm(header)
  }

  /** No header stands for two columns. */
  ghost predicate Unambiguous(norm: NormalForm, schema: Schema) {
    forall c, d, header: Header | c in schema && d in schema && GoesBy(norm, c, header) && GoesBy(norm, d, header) ::
      c.canonical == d.canonical
  }

  /** The index is the relation "goes by", no more and no less. */
  ghost predicate IsIndexOf(norm: NormalForm, index: Index, schema: Schema) {
    && (forall c, header: Header | c in schema && GoesBy(norm, c, header) ::
          norm(header) in index && index[norm(header)] == c.canonical)
    && (forall name | name in index ::
          exists c :: c in schema && IsClaimOf(norm, c, Claim(name, index[name])))
  }

  method BuildAliasIndex(norm: NormalForm, schema: Schema, testMode: bool) returns (r: Result<Index, Error>)
    ensures r == SchemaIndex(norm, schema, testMode)
  {
    var index: Index := map[];
    for i := 0 to |schema|
      invariant IndexUpTo(norm, schema, i, testMode) == Ok(index)
    {
      var canonical, names := schema[i].canonical, NamesOf(schema[i]);
      ghost var before := IndexUpTo(norm, schema, i, testMode);
      for j := 0 to |names|
        invariant EnterNames(norm, before, canonical, names, j, testMode) == Ok(index)
      {
        var name := norm(names[j]);
        if name in index && index[name] != canonical && !testMode {
          NameErrorStays(norm, before, canonical, names, j + 1, |names|, testMode);
          ErrorStays(norm, schema, i + 1, |schema|, testMode);
          return Err(NameCollision);
        }
        index := index[name := canonical];
      }
    }
    r := Ok(index);
  }

  lemma {:induction false} NameErrorStays(norm: NormalForm, index: Result<Index, Error>, canonical: Header,
                                          names: seq<Header>, j: nat, n: nat, testMode: bool)
    requires j <= n <= |names| && EnterNames(norm, index, canonical, names, j, testMode) == Err(NameCollision)
    ensures EnterNames(norm, index, canonical, names, n, testMode) == Err(NameCollision)
  {
    if j < n {
      NameErrorStays(norm, index, canonical, names, j, n - 1, testMode);
    }
  }

  lemma {:induction false} ErrorStays(norm: NormalForm, schema: Schema, i: nat, n: nat, testMode: bool)
    requires i <= n <= |schema| && IndexUpTo(norm, schema, i, testMode) == Err(NameCollision)
    ensures IndexUpTo(norm, schema, n, testMode) == Err(NameCollision)
  {
    if i < n {
      ErrorStays(norm, schema, i, n - 1, testMode);
      var c := schema[n - 1];
      var before := IndexUpTo(norm, schema, n - 1, testMode);
      NameErrorStays(norm, before, c.canonical, NamesOf(c), 0, |NamesOf(c)|, testMode);
    }
  }

  lemma {:induction false} NamesOverwrite(norm: NormalForm, r: Result<Index, Error>, canonical: Header,
                                          names: seq<Header>, n: nat)
    requires n <= |names| && r.Ok?
    ensures EnterNames(norm, r, canonical, names, n, true).Ok?
  {
    if n > 0 {
      NamesOverwrite(norm, r, canonical, names, n - 1);
    }
  }

  /** In test mode later names replace earlier ones, and no schema is refused. */
  lemma {:induction false} TestModeAccepts(norm: NormalForm, schema: Schema, n: nat)
    requires n <= |schema|
    ensures IndexUpTo(norm, schema, n, true).Ok?
  {
    if n > 0 {
      TestModeAccepts(norm, schema, n - 1);
      var c := schema[n - 1];
      NamesOverwrite(norm, IndexUpTo(norm, schema, n - 1, true), c.canonical, NamesOf(c), |NamesOf(c)|);
    }
  }

  // ----- what the index means

  ghost function NameClaims(norm: NormalForm, canonical: Header, names: seq<Header>, n: nat): set<Claim>
    requires n <= |names|
  {
    if n == 0 then {} else NameClaims(norm, canonical, names, n - 1) + {ClaimOf(norm, canonical, names[n - 1])}
  }

  ghost function SchemaClaims(norm: NormalForm, schema: Schema, n: nat): set<Claim>
    requires n <= |schema|
  {
    if n == 0 then {}
    else
      var c := schema[n - 1];
      SchemaClaims(norm, schema, n - 1) + NameClaims(norm, c.canonical, NamesOf(c), |NamesOf(c)|)
  }

  ghost predicate Agreeing(claims: set<Claim>) {
    forall c, d | c in claims && d in claims && c.name == d.name :: c.canonical == d.canonical
  }

  /** The index exists exactly when no two claims clash, and then it lists the claims. */
  ghost predicate Lists(r: Result<Index, Error>, claims: set<Claim>) {
    match r
    case Err(e) => e == NameCollision && !Agreeing(claims)
    case Ok(index) =>
      && Agreeing(claims)
      && forall c: Claim :: c in claims <==> c.name in index && index[c.name] == c.canonical
  }

  lemma EnterKeepsLists(r: Result<Index, Error>, claims: set<Claim>, c: Claim)
    requires Lists(r, claims)
    ensures Lists(Enter(r, c, false), claims + {c})
  {
    if r.Ok? && c.name in r.value {
      assert Claim(c.name, r.value[c.name]) in claims;
    } else if r.Err? {
      var d, e :| d in claims && e in claims && d.name == e.name && d.canonical != e.canonical;
      assert d in claims + {c} && e in claims + {c};
    }
  }

  lemma {:induction false} NamesKeepLists(norm: NormalForm, r: Result<Index, Error>, claims: set<Claim>,
                                          canonical: Header, names: seq<Header>, n: nat)
    requires n <= |names| && Lists(r, claims)
    ensures Lists(EnterNames(norm, r, canonical, names, n, false), claims + NameClaims(norm, canonical, names, n))
  {
    if n == 0 {
      assert claims + {} == claims;
    } else {
      NamesKeepLists(norm, r, claims, canonical, names, n - 1);
      var c := ClaimOf(norm, canonical, names[n - 1]);
      var before := EnterNames(norm, r, canonical, names, n - 1, false);
      EnterKeepsLists(before, claims + NameClaims(norm, canonical, names, n - 1), c);
      assert claims + NameClaims(norm, canonical, names, n - 1) + {c} == claims + NameClaims(norm, canonical, names, n);
    }
  }

  lemma {:induction false} IndexListsClaims(norm: NormalForm, schema: Schema, n: nat)
    requires n <= |schema|
    ensures Lists(IndexUpTo(norm, schema, n, false), SchemaClaims(norm, schema, n))
  {
    if n > 0 {
      IndexListsClaims(norm, schema, n - 1);
      var c := schema[n - 1];
      var before, claims := IndexUpTo(norm, schema, n - 1, false), SchemaClaims(norm, schema, n - 1);
      NamesKeepLists(norm, before, claims, c.canonical, NamesOf(c), |NamesOf(c)|);
    }
  }

  ghost predicate IsClaimOf(norm: NormalForm, col: Column, c: Claim) {
    col.canonical == c.canonical && exists n :: n in NamesOf(col) && norm(n) == c.name
  }

  lemma {:induction false} NameClaimsAreTheNames(norm: NormalForm, canonical: Header, names: seq<Header>, n: nat,
                                                 c: Claim)
    requires n <= |names|
    ensures c in NameClaims(norm, canonical, names, n)
       <==> c.canonical == canonical && exists j :: 0 <= j < n && norm(names[j]) == c.name
  {
    if n > 0 {
      NameClaimsAreTheNames(norm, canonical, names, n - 1, c);
    }
  }

  lemma {:induction false} ClaimsAreTheColumns(norm: NormalForm, schema: Schema, n: nat, c: Claim)
    requires n <= |schema|
    ensures c in SchemaClaims(norm, schema, n) <==> exists i :: 0 <= i < n && IsClaimOf(norm, schema[i], c)
  {
    if n > 0 {
      ClaimsAreTheColumns(norm, schema, n - 1, c);
      var last := schema[n - 1];
      var names := NamesOf(last);
      NameClaimsAreTheNames(norm, last.canonical, names, |names|, c);
      if c.canonical == last.canonical && exists j :: 0 <= j < |names| && norm(names[j]) == c.name {
        var j :| 0 <= j < |names| && norm(names[j]) == c.name;
        assert names[j] in names;
      }
    }
  }

  lemma Claimed(norm: NormalForm, schema: Schema, c: Claim)
    ensures c in SchemaClaims(norm, schema, |schema|) <==> exists col :: col in schema && IsClaimOf(norm, col, c)
  {
    ClaimsAreTheColumns(norm, schema, |schema|, c);
    if exists i :: 0 <= i < |schema| && IsClaimOf(norm, schema[i], c) {
      var i :| 0 <= i < |schema| && IsClaimOf(norm, schema[i], c);
      assert schema[i] in schema;
    }
  }

  lemma HeaderIsClaimed(norm: NormalForm, schema: Schema, c: Column, header: Header)
    requires c in schema && GoesBy(norm, c, header)
    ensures ClaimOf(norm, c.canonical, header) in SchemaClaims(norm, schema, |schema|)
  {
    Claimed(norm, schema, ClaimOf(norm, c.canonical, header));
    assert IsClaimOf(norm, c, ClaimOf(norm, c.canonical, header));
  }

  lemma NoClash(norm: NormalForm, schema: Schema, claims: set<Claim>)
    requires claims == SchemaClaims(norm, schema, |schema|) && Agreeing(claims)
    ensures Unambiguous(norm, schema)
  {
    forall c, d, header: Header | c in schema && d in schema && GoesBy(norm, c, header) && GoesBy(norm, d, header)
      ensures c.canonical == d.canonical
    {
      HeaderIsClaimed(norm, schema, c, header);
      HeaderIsClaimed(norm, schema, d, header);
    }
  }

  lemma BothGoBy(norm: NormalForm, c: Column, d: Column, x: Claim, y: Claim) returns (header: Header)
    requires IsClaimOf(norm, c, x) && IsClaimOf(norm, d, y) && x.name == y.name
    ensures GoesBy(norm, c, header) && GoesBy(norm, d, header)
  {
    header :| header in NamesOf(c) && norm(header) == x.name;
  }

  lemma Clash(norm: NormalForm, schema: Schema, claims: set<Claim>)
    requires claims == SchemaClaims(norm, schema, |schema|) && !Agreeing(claims)
    ensures !Unambiguous(norm, schema)
  {
    var x, y :| x in claims && y in claims && x.name == y.name && x.canonical != y.canonical;
    Claimed(norm, schema, x);
    Claimed(norm, schema, y);
    var c :| c in schema && IsClaimOf(norm, c, x);
    var d :| d in schema && IsClaimOf(norm, d, y);
    var header := BothGoBy(norm, c, d, x, y);
  }

  /** Outside test mode a schema is accepted exactly when unambiguous; its index then sends every
      canonical name and alias to its own column, and knows no other header. */
  lemma SchemaIndexIsExact(norm: NormalForm, schema: Schema)
    ensures SchemaIndex(norm, schema, false).Ok? <==> Unambiguous(norm, schema)
    ensures SchemaIndex(norm, schema, false).Ok? ==> IsIndexOf(norm, SchemaIndex(norm, schema, false).value, schema)
    ensures SchemaIndex(norm, schema, false).Err? ==> SchemaIndex(norm, schema, false) == Err(NameCollision)
  {
    IndexListsClaims(norm, schema, |schema|);
    if SchemaIndex(norm, schema, false).Err? {
      Clash(norm, schema, SchemaClaims(norm, schema, |schema|));
    } else {
      NoClash(norm, schema, SchemaClaims(norm, schema, |schema|));
      var index := SchemaIndex(norm, schema, false).value;
      forall c, header: Header | c in schema && GoesBy(norm, c, header)
        ensures norm(header) in index && index[norm(header)] == c.canonical
      {
        HeaderIsClaimed(norm, schema, c, header);
      }
      forall name | name in index ensures exists c :: c in schema && IsClaimOf(norm, c, Claim(name, index[name])) {
        Claimed(norm, schema, Claim(name, index[name]));
      }
    }
  }

  /** The order of the columns changes neither the verdict nor the index. */
  lemma IndexForgetsOrder(norm: NormalForm, s: Schema, t: Schema)
    requires forall c :: c in s <==> c in t
    ensures SchemaIndex(norm, s, false) == SchemaIndex(norm, t, false)
  {
    IndexListsClaims(norm, s, |s|);
    IndexListsClaims(norm, t, |t|);
    forall c ensures c in SchemaClaims(norm, s, |s|) <==> c in SchemaClaims(norm, t, |t|) {
      Claimed(norm, s, c);
      Claimed(norm, t, c);
    }
    assert SchemaClaims(norm, s, |s|) == SchemaClaims(norm, t, |t|);
    SameLists(SchemaIndex(norm, s, false), SchemaIndex(norm, t, false), SchemaClaims(norm, s, |s|));
  }

  lemma SameLists(r: Result<Index, Error>, q: Result<Index, Error>, claims: set<Claim>)
    requires Lists(r, claims) && Lists(q, claims)
    ensures r == q
  {
    if r.Ok? {
      forall name | name in r.value ensures name in q.value && q.value[name] == r.value[name] {
        assert Claim(name, r.value[name]) in claims;
      }
      forall name | name in q.value ensures name in r.value {
        assert Claim(name, q.value[name]) in claims;
      }
      assert r.value == q.value;
    }
  }
}
