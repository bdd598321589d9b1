/** Which cells a renamed row has, also when new names clash (backend/agent/column_registry.py). */
module RenamedCells {
  import opened Results
  import opened SpreadsheetRenaming

  /** A column takes the name that it is mapped to, unless that is "unknown"; all else keeps its name. */
  predicate IsRenamed(mapping: Mapping, columns: seq<Key>, key: Key, renamed: Key) {
    if key in columns && key in mapping && mapping[key] != Key("unknown") then renamed == mapping[key]
    else renamed == key
  }

  /** The names in order of first occurrence. */
  function Firsts(keys: seq<Key>): seq<Key> {
    if keys == [] then []
    else
      var front, last := keys[..|keys| - 1], keys[|keys| - 1];
      Firsts(front) + if last in front then [] else [last]
  }

  /** The value that comes last under a name. */
  function LastValue<V>(keys: seq<Key>, row: Row<V>, k: Key): Option<V>
    requires |keys| == |row|
  {
    if keys == [] then None
    else if keys[|keys| - 1] == k then Some(row[|row| - 1].value)
    else LastValue(keys[..|keys| - 1], row[..|row| - 1], k)
  }

  /** One cell for each name, in order of first occurrence, with the value that comes last. */
  ghost predicate BuiltFrom<V>(r: Row<V>, keys: seq<Key>, row: Row<V>)
    requires |keys| == |row|
  {
    && |r| == |Firsts(keys)|
    && forall i | 0 <= i < |r| :: r[i].key == Firsts(keys)[i] && LastValue(keys, row, r[i].key) == Some(r[i].value)
  }

  lemma {:induction false} FirstsAreTheNames(keys: seq<Key>, k: Key)
    ensures k in Firsts(keys) <==> k in keys
  {
    if keys != [] {
      FirstsAreTheNames(keys[..|keys| - 1], k);
      assert keys == keys[..|keys| - 1] + [keys[|keys| - 1]];
    }
  }

  lemma {:induction false} FirstsAreDistinct(keys: seq<Key>, i: nat, j: nat)
    requires i < j < |Firsts(keys)|
    ensures Firsts(keys)[i] != Firsts(keys)[j]
  {
    var front, last := keys[..|keys| - 1], keys[|keys| - 1];
    if j < |Firsts(front)| {
      FirstsAreDistinct(front, i, j);
    } else {
      FirstsAreTheNames(front, last);
      assert Firsts(front)[i] in Firsts(front);
    }
  }

  lemma {:induction false} SetOldCell<V>(row: Row<V>, p: nat, value: V)
    requires p < |row| && forall i | 0 <= i < p :: row[i].key != row[p].key
    ensures SetCell(row, row[p].key, value) == row[p := Cell(row[p].key, value)]
  {
    if p > 0 {
      SetOldCell(row[1..], p - 1, value);
    }
  }

  lemma NextCell<V>(r: Row<V>, keys: seq<Key>, row: Row<V>, key: Key, cell: Cell<V>)
    requires |keys| == |row| && BuiltFrom(r, keys, row)
    ensures BuiltFrom(SetCell(r, key, cell.value), keys + [key], row + [cell])
  {
    var more, cells := keys + [key], row + [cell];
    assert more[..|keys|] == keys && cells[..|row|] == row;
    FirstsAreTheNames(keys, key);
    if key in keys {
      var p :| 0 <= p < |r| && r[p].key == key;
      forall i, j | 0 <= i < j < |r| ensures r[i].key != r[j].key {
        FirstsAreDistinct(keys, i, j);
      }
      SetOldCell(r, p, cell.value);
    } else {
      forall i | 0 <= i < |r| ensures r[i].key != key {
        assert Firsts(keys)[i] in Firsts(keys);
      }
      SetNewCell(r, key, cell.value);
    }
  }

  function NewKeys<V>(mapping: Mapping, columns: set<Key>, row: Row<V>, n: nat): (r: seq<Key>)
    requires n <= |row|
    ensures |r| == n && forall i | 0 <= i < n :: r[i] == NewKey(mapping, columns, row[i].key)
  {
    seq(n, i requires 0 <= i < n => NewKey(mapping, columns, row[i].key))
  }

  lemma {:induction false} RowIsBuilt<V>(mapping: Mapping, columns: set<Key>, row: Row<V>, n: nat)
    requires n <= |row|
    ensures BuiltFrom(RenamedRow(mapping, columns, row, n), NewKeys(mapping, columns, row, n), row[..n])
  {
    if n > 0 {
      RowIsBuilt(mapping, columns, row, n - 1);
      NextCell(RenamedRow(mapping, columns, row, n - 1), NewKeys(mapping, columns, row, n - 1), row[..n - 1],
               NewKey(mapping, columns, row[n - 1].key), row[n - 1]);
      assert row[..n - 1] + [row[n - 1]] == row[..n];
      assert NewKeys(mapping, columns, row, n - 1) + [NewKey(mapping, columns, row[n - 1].key)]
          == NewKeys(mapping, columns, row, n);
    }
  }

  lemma NameExactly(mapping: Mapping, columns: seq<Key>, all: set<Key>, key: Key)
    requires all == set c | c in columns
    ensures IsRenamed(mapping, columns, key, NewKey(mapping, all, key))
    ensures key in columns ==> IsRenamed(mapping, columns, key, NewName(mapping, key))
  {
  }

  /**
   A renamed sheet keeps its name, its number of columns and rows; each row has one cell for every new name, in the
   order in which these first occur, with the value that stood last under that name.
   */
  lemma SheetExactly<V>(mapping: Mapping, sheet: Sheet<V>, j: nat) returns (keys: seq<Key>)
    requires j < |sheet.rows|
    ensures var r, row := RenamedSheet(mapping, sheet), sheet.rows[j];
            && r.name == sheet.name && r.others == map[] && |r.rows| == |sheet.rows| && |r.columns| == |sheet.columns|
            && (forall i | 0 <= i < |r.columns| :: IsRenamed(mapping, sheet.columns, sheet.columns[i], r.columns[i]))
            && |keys| == |row| && (forall i | 0 <= i < |row| :: IsRenamed(mapping, sheet.columns, row[i].key, keys[i]))
            && BuiltFrom(r.rows[j], keys, row)
  {
    var row, all := sheet.rows[j], ColumnSet(sheet);
    keys := NewKeys(mapping, all, row, |row|);
    RowIsBuilt(mapping, all, row, |row|);
    assert row[..|row|] == row;
    forall key
      ensures IsRenamed(mapping, sheet.columns, key, NewKey(mapping, all, key))
      ensures key in sheet.columns ==> IsRenamed(mapping, sheet.columns, key, NewName(mapping, key))
    {
      NameExactly(mapping, sheet.columns, all, key);
    }
  }
}
