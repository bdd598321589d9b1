/** Renaming the columns of a spreadsheet (`normalize_spreadsheet` in backend/agent/column_registry.py). */
module SpreadsheetRenaming {

  /** A column name or row key. */
  datatype Key = Key(text: string)

  const UNKNOWN := Key("unknown")

  /** One entry of a row dictionary. */
  datatype Cell<V> = Cell(key: Key, value: V)

  /** A dictionary, in insertion order. */
  type Row<V> = seq<Cell<V>>

  /** `others` are the entries that a renaming does not know. */
  datatype Sheet<V> = Sheet(name: string, columns: seq<Key>, rows: seq<Row<V>>, others: map<string, V>)

  datatype Workbook<V> = Workbook(name: string, sheets: seq<Sheet<V>>, others: map<string, V>)

  type Mapping = map<Key, Key>

  ghost predicate IsDictionary<V>(row: Row<V>) {
    forall i, j | 0 <= i < j < |row| :: row[i].key != row[j].key
  }

  function NewName(mapping: Mapping, column: Key): Key {
    var canonical := if column in mapping then mapping[column] else column;
    if canonical == UNKNOWN then column else canonical
  }

  /** The new name of a row key: a key that is no column keeps its name. */
  function NewKey(mapping: Mapping, columns: set<Key>, key: Key): Key {
    if key in columns then NewName(mapping, key) else key
  }

  /** Assigning a dictionary entry: an existing key keeps its place. */
  function SetCell<V>(row: Row<V>, key: Key, value: V): Row<V> {
    if row == [] then [Cell(key, value)]
    else if row[0].key == key then [Cell(key, value)] + row[1..]
    else [row[0]] + SetCell(row[1..], key, value)
  }

  /** The row built from the first `n` cells. */
  function RenamedRow<V>(mapping: Mapping, columns: set<Key>, row: Row<V>, n: nat): Row<V>
    requires n <= |row|
  {
    if n == 0 then []
    else SetCell(RenamedRow(mapping, columns, row, n - 1), NewKey(mapping, columns, row[n - 1].key), row[n - 1].value)
  }

  function RenamedColumns(mapping: Mapping, columns: seq<Key>): (r: seq<Key>)
    ensures |r| == |columns| && forall i | 0 <= i < |r| :: r[i] == NewName(mapping, columns[i])
  {
    seq(|columns|, i requires 0 <= i < |columns| => NewName(mapping, columns[i]))
  }

  function RenamedRows<V>(mapping: Mapping, columns: set<Key>, rows: seq<Row<V>>): (r: seq<Row<V>>)
    ensures |r| == |rows| && forall i | 0 <= i < |r| :: r[i] == RenamedRow(mapping, columns, rows[i], |rows[i]|)
  {
    seq(|rows|, i requires 0 <= i < |rows| => RenamedRow(mapping, columns, rows[i], |rows[i]|))
  }

  ghost function ColumnSet<V>(sheet: Sheet<V>): set<Key> {
    set c | c in sheet.columns
  }

  ghost function RenamedSheet<V>(mapping: Mapping, sheet: Sheet<V>): Sheet<V> {
    Sheet(sheet.name, RenamedColumns(mapping, sheet.columns), RenamedRows(mapping, ColumnSet(sheet), sheet.rows), map[])
  }

  // ----- the code

  method NormalizeSheet<V>(mapping: Mapping, sheet: Sheet<V>) returns (r: Sheet<V>)
    ensures r == RenamedSheet(mapping, sheet)
  {
    var rename: Mapping, columns := map[], [];
    for i := 0 to |sheet.columns|
      invariant columns == RenamedColumns(mapping, sheet.columns)[..i]
      invariant forall k :: k in rename <==> k in sheet.columns[..i]
      invariant forall k | k in rename :: rename[k] == NewName(mapping, k)
    {
      var column := sheet.columns[i];
      assert sheet.columns[..i + 1] == sheet.columns[..i] + [column];
      rename := rename[column := NewName(mapping, column)];
      columns := columns + [NewName(mapping, column)];
    }
    assert sheet.columns[..|sheet.columns|] == sheet.columns;
    ghost var all := ColumnSet(sheet);
    var rows := [];
    for i := 0 to |sheet.rows|
      invariant rows == RenamedRows(mapping, all, sheet.rows)[..i]
    {
      var row: Row<V>, renamed: Row<V> := sheet.rows[i], [];
      for j := 0 to |row|
        invariant renamed == RenamedRow(mapping, all, row, j)
      {
        var key := if row[j].key in rename then rename[row[j].key] else row[j].key;
        renamed := SetCell(renamed, key, row[j].value);
      }
      rows := rows + [renamed];
    }
    r := Sheet(sheet.name, columns, rows, map[]);
  }

  method NormalizeSpreadsheet<V>(data: Workbook<V>, mapping: Mapping) returns (r: Workbook<V>)
    ensures mapping == map[] ==> r == data
    ensures mapping != map[] ==> r.name == data.name && |r.sheets| == |data.sheets| && r.others == map[]
    ensures mapping != map[] ==> forall i | 0 <= i < |r.sheets| :: r.sheets[i] == RenamedSheet(mapping, data.sheets[i])
  {
    if mapping == map[] { return data; }
    var sheets := [];
    for i := 0 to |data.sheets|
      invariant |sheets| == i
      invariant forall k | 0 <= k < i :: sheets[k] == RenamedSheet(mapping, data.sheets[k])
    {
      var sheet := NormalizeSheet(mapping, data.sheets[i]);
      sheets := sheets + [sheet];
    }
    r := Workbook(data.name, sheets, map[]);
  }

  // ----- what a renaming keeps, and when it can be undone

  ghost function KeysOf<V>(row: Row<V>): set<Key> {
    set i | 0 <= i < |row| :: row[i].key
  }

  /** Every column name and row key of the sheet. */
  ghost function AllKeys<V>(sheet: Sheet<V>): set<Key> {
    ColumnSet(sheet) + set i, k | 0 <= i < |sheet.rows| && k in KeysOf(sheet.rows[i]) :: k
  }

  ghost predicate InjectiveOn(mapping: Mapping, columns: set<Key>, keys: set<Key>) {
    forall k, l | k in keys && l in keys && NewKey(mapping, columns, k) == NewKey(mapping, columns, l) :: k == l
  }

  /** The mapping that sends every new column name back. */
  function Inverse(mapping: Mapping, columns: seq<Key>, n: nat): Mapping
    requires n <= |columns|
  {
    if n == 0 then map[] else Inverse(mapping, columns, n - 1)[NewName(mapping, columns[n - 1]) := columns[n - 1]]
  }

  function Undo(mapping: Mapping, columns: seq<Key>): Mapping {
    Inverse(mapping, columns, |columns|)
  }

  ghost predicate Reversible<V>(mapping: Mapping, sheet: Sheet<V>) {
    && InjectiveOn(mapping, ColumnSet(sheet), AllKeys(sheet)) && sheet.others == map[]
    && (UNKNOWN in sheet.columns ==> NewName(mapping, UNKNOWN) == UNKNOWN)
  }

  lemma {:induction false} SetNewCell<V>(row: Row<V>, key: Key, value: V)
    requires forall i | 0 <= i < |row| :: row[i].key != key
    ensures SetCell(row, key, value) == row + [Cell(key, value)]
  {
    if row != [] {
      SetNewCell(row[1..], key, value);
    }
  }

  lemma {:induction false} SetCellKeys<V>(row: Row<V>, key: Key, value: V)
    ensures KeysOf(SetCell(row, key, value)) <= KeysOf(row) + {key}
  {
    if row != [] {
      KeysOfFirst(row);
      KeysOfFirst(SetCell(row, key, value));
      if row[0].key == key {
        assert SetCell(row, key, value)[1..] == row[1..];
      } else {
        SetCellKeys(row[1..], key, value);
        assert SetCell(row, key, value)[1..] == SetCell(row[1..], key, value);
      }
    }
  }

  lemma KeysOfFirst<V>(row: Row<V>)
    requires row != []
    ensures KeysOf(row) == {row[0].key} + KeysOf(row[1..])
  {
  }

  lemma {:induction false} RenamedRowKeys<V>(mapping: Mapping, columns: set<Key>, row: Row<V>, n: nat, k: Key)
    requires n <= |row| && k in KeysOf(RenamedRow(mapping, columns, row, n))
    ensures exists i :: 0 <= i < n && k == NewKey(mapping, columns, row[i].key)
  {
    if n > 0 {
      var before := RenamedRow(mapping, columns, row, n - 1);
      SetCellKeys(before, NewKey(mapping, columns, row[n - 1].key), row[n - 1].value);
      if k in KeysOf(before) {
        RenamedRowKeys(mapping, columns, row, n - 1, k);
      }
    }
  }

  ghost predicate EachRenamed<V>(mapping: Mapping, columns: set<Key>, row: Row<V>, r: Row<V>, n: nat)
    requires n <= |row|
  {
    && |r| == n
    && forall i | 0 <= i < n :: r[i] == Cell(NewKey(mapping, columns, row[i].key), row[i].value)
  }

  ghost predicate NoClash<V>(mapping: Mapping, columns: set<Key>, row: Row<V>) {
    forall i, j | 0 <= i < j < |row| :: NewKey(mapping, columns, row[i].key) != NewKey(mapping, columns, row[j].key)
  }

  lemma {:induction false} CellsKept<V>(mapping: Mapping, columns: set<Key>, row: Row<V>, n: nat)
    requires n <= |row| && NoClash(mapping, columns, row)
    ensures EachRenamed(mapping, columns, row, RenamedRow(mapping, columns, row, n), n)
  {
    if n > 0 {
      CellsKept(mapping, columns, row, n - 1);
      SetNewCell(RenamedRow(mapping, columns, row, n - 1), NewKey(mapping, columns, row[n - 1].key), row[n - 1].value);
    }
  }

  /** When no two keys of a row get the same name, every cell keeps its place and its value. */
  lemma EveryCellKept<V>(mapping: Mapping, columns: set<Key>, row: Row<V>)
    requires IsDictionary(row) && InjectiveOn(mapping, columns, KeysOf(row))
    ensures EachRenamed(mapping, columns, row, RenamedRow(mapping, columns, row, |row|), |row|)
  {
    forall i, j | 0 <= i < j < |row|
      ensures NewKey(mapping, columns, row[i].key) != NewKey(mapping, columns, row[j].key)
    {
      assert row[i].key in KeysOf(row) && row[j].key in KeysOf(row);
    }
    CellsKept(mapping, columns, row, |row|);
  }

  lemma {:induction false} InverseIsExact(mapping: Mapping, columns: seq<Key>, n: nat)
    requires n <= |columns|
    ensures forall i | 0 <= i < n :: NewName(mapping, columns[i]) in Inverse(mapping, columns, n)
    ensures forall x | x in Inverse(mapping, columns, n) ::
      Inverse(mapping, columns, n)[x] in columns && NewName(mapping, Inverse(mapping, columns, n)[x]) == x
  {
    if n > 0 {
      InverseIsExact(mapping, columns, n - 1);
    }
  }

  /** `NewKey` of the inverse undoes `NewKey`, key by key. */
  lemma KeyRestored<V>(mapping: Mapping, sheet: Sheet<V>, k: Key)
    requires Reversible(mapping, sheet) && k in AllKeys(sheet)
    ensures
      var inverse, renamed := Undo(mapping, sheet.columns), ColumnSet(RenamedSheet(mapping, sheet));
      NewKey(inverse, renamed, NewKey(mapping, ColumnSet(sheet), k)) == k
  {
    var columns := sheet.columns;
    InverseIsExact(mapping, columns, |columns|);
    var inverse, renamed := Undo(mapping, columns), ColumnSet(RenamedSheet(mapping, sheet));
    if k in columns {
      var i :| 0 <= i < |columns| && columns[i] == k;
      var name := NewName(mapping, k);
      assert name == RenamedColumns(mapping, columns)[i];
      assert name in inverse && inverse[name] in AllKeys(sheet);
      assert NewKey(mapping, ColumnSet(sheet), inverse[name]) == NewKey(mapping, ColumnSet(sheet), k);
    } else {
      assert forall i | 0 <= i < |columns| :: columns[i] in AllKeys(sheet) && columns[i] != k;
      assert forall i | 0 <= i < |columns| :: RenamedColumns(mapping, columns)[i] != k;
      assert k !in renamed;
    }
  }

  lemma RowRestored<V>(mapping: Mapping, sheet: Sheet<V>, r: nat)
    requires Reversible(mapping, sheet) && r < |sheet.rows| && IsDictionary(sheet.rows[r])
    ensures RenamedSheet(Undo(mapping, sheet.columns), RenamedSheet(mapping, sheet)).rows[r] == sheet.rows[r]
  {
    var row, columns := sheet.rows[r], ColumnSet(sheet);
    var inverse, renamed := Undo(mapping, sheet.columns), ColumnSet(RenamedSheet(mapping, sheet));
    forall k | k in KeysOf(row)
      ensures k in AllKeys(sheet) && NewKey(inverse, renamed, NewKey(mapping, columns, k)) == k
    {
      KeyRestored(mapping, sheet, k);
    }
    EveryCellKept(mapping, columns, row);
    var there := RenamedRow(mapping, columns, row, |row|);
    RestoredRow(mapping, columns, inverse, renamed, row, there);
  }

  lemma RestoredRow<V>(mapping: Mapping, columns: set<Key>, inverse: Mapping, renamed: set<Key>, row: Row<V>,
                       there: Row<V>)
    requires IsDictionary(row) && |there| == |row|
    requires forall i | 0 <= i < |row| :: there[i] == Cell(NewKey(mapping, columns, row[i].key), row[i].value)
    requires forall k | k in KeysOf(row) :: NewKey(inverse, renamed, NewKey(mapping, columns, k)) == k
    ensures RenamedRow(inverse, renamed, there, |there|) == row
  {
    forall i | 0 <= i < |row| ensures NewKey(inverse, renamed, there[i].key) == row[i].key {
      assert row[i].key in KeysOf(row);
    }
    EveryCellKept(inverse, renamed, there);
    forall i | 0 <= i < |row| ensures RenamedRow(inverse, renamed, there, |there|)[i] == row[i] {
      assert row[i] == Cell(row[i].key, row[i].value);
    }
  }

  lemma ReversibleIsRestored<V>(mapping: Mapping, sheet: Sheet<V>)
    requires Reversible(mapping, sheet) && forall r | 0 <= r < |sheet.rows| :: IsDictionary(sheet.rows[r])
    ensures RenamedSheet(Undo(mapping, sheet.columns), RenamedSheet(mapping, sheet)) == sheet
  {
    var back := RenamedSheet(Undo(mapping, sheet.columns), RenamedSheet(mapping, sheet));
    forall r | 0 <= r < |sheet.rows| ensures back.rows[r] == sheet.rows[r] {
      RowRestored(mapping, sheet, r);
    }
    forall i | 0 <= i < |sheet.columns| ensures back.columns[i] == sheet.columns[i] {
      KeyRestored(mapping, sheet, sheet.columns[i]);
      assert RenamedSheet(mapping, sheet).columns[i] in RenamedSheet(mapping, sheet).columns;
    }
    assert back.rows == sheet.rows && back.columns == sheet.columns;
  }

  ghost predicate ColumnsRestored(mapping: Mapping, columns: seq<Key>, back: Mapping) {
    forall c | c in columns :: NewName(back, NewName(mapping, c)) == c
  }

  /** Columns come back only if no two share a new name and a column "unknown" keeps its name. */
  lemma RestoredColumnsAreInjective(mapping: Mapping, columns: seq<Key>, back: Mapping)
    requires ColumnsRestored(mapping, columns, back)
    ensures forall c, d | c in columns && d in columns && NewName(mapping, c) == NewName(mapping, d) :: c == d
    ensures UNKNOWN in columns ==> NewName(mapping, UNKNOWN) == UNKNOWN
  {
  }

  /** No key of a sheet renamed back is one that the columns gave away. */
  lemma GivenAway<V>(mapping: Mapping, sheet: Sheet<V>, back: Mapping, k: Key, x: Key)
    requires ColumnsRestored(mapping, sheet.columns, back)
    requires exists c :: c in sheet.columns && NewName(mapping, c) == k && c != k
    requires k !in sheet.columns
    ensures NewKey(back, ColumnSet(RenamedSheet(mapping, sheet)), x) != k
  {
    var there := RenamedSheet(mapping, sheet);
    if x in there.columns {
      var i :| 0 <= i < |there.columns| && there.columns[i] == x;
      assert sheet.columns[i] in sheet.columns && NewName(back, x) == sheet.columns[i];
    } else {
      var c :| c in sheet.columns && NewName(mapping, c) == k && c != k;
      var i :| 0 <= i < |sheet.columns| && sheet.columns[i] == c;
      assert there.columns[i] == k;
    }
  }

  /** A row key that is no column but has the new name of one does not come back. */
  lemma CapturedKeyIsLost<V>(mapping: Mapping, sheet: Sheet<V>, back: Mapping, r: nat, i: nat, c: Key)
    requires ColumnsRestored(mapping, sheet.columns, back) && r < |sheet.rows| && i < |sheet.rows[r]|
    requires c in sheet.columns && sheet.rows[r][i].key !in sheet.columns
    requires NewName(mapping, c) == sheet.rows[r][i].key
    ensures RenamedSheet(back, RenamedSheet(mapping, sheet)).rows[r] != sheet.rows[r]
  {
    var there := RenamedSheet(mapping, sheet);
    var renamed, row, k := ColumnSet(there), there.rows[r], sheet.rows[r][i].key;
    var restored := RenamedRow(back, renamed, row, |row|);
    forall x ensures NewKey(back, renamed, x) != k {
      GivenAway(mapping, sheet, back, k, x);
    }
    if k in KeysOf(restored) {
      RenamedRowKeys(back, renamed, row, |row|, k);
    }
    assert k in KeysOf(sheet.rows[r]);
  }

  lemma Captured<V>(mapping: Mapping, sheet: Sheet<V>, back: Mapping, k: Key, c: Key)
    requires ColumnsRestored(mapping, sheet.columns, back)
    requires k in AllKeys(sheet) && k !in sheet.columns && c in sheet.columns && NewName(mapping, c) == k
    ensures RenamedSheet(back, RenamedSheet(mapping, sheet)) != sheet
  {
    var r :| 0 <= r < |sheet.rows| && k in KeysOf(sheet.rows[r]);
    var i :| 0 <= i < |sheet.rows[r]| && sheet.rows[r][i].key == k;
    CapturedKeyIsLost(mapping, sheet, back, r, i, c);
  }

  /** Whatever mapping brings a sheet back, the first one was reversible. */
  lemma RestoredIsReversible<V>(mapping: Mapping, sheet: Sheet<V>, back: Mapping)
    requires RenamedSheet(back, RenamedSheet(mapping, sheet)) == sheet
    ensures Reversible(mapping, sheet)
  {
    forall c | c in sheet.columns ensures NewName(back, NewName(mapping, c)) == c {
      var i :| 0 <= i < |sheet.columns| && sheet.columns[i] == c;
      assert RenamedSheet(back, RenamedSheet(mapping, sheet)).columns[i] == c;
    }
    RestoredColumnsAreInjective(mapping, sheet.columns, back);
    var columns := ColumnSet(sheet);
    if k, l :| k in AllKeys(sheet) && l in AllKeys(sheet) && k != l &&
               NewKey(mapping, columns, k) == NewKey(mapping, columns, l) {
      Captured(mapping, sheet, back, if k in columns then l else k, if k in columns then k else l);
    }
  }

  /**
   Some renaming brings the sheet back, its columns and the order and values of its cells included,
   exactly when it has no other entries, and the mapping gives no two keys the same name and leaves a column
   "unknown" alone; and then the inverse mapping does.
   */
  lemma RoundTrip<V>(mapping: Mapping, sheet: Sheet<V>)
    requires forall r | 0 <= r < |sheet.rows| :: IsDictionary(sheet.rows[r])
    ensures (exists back: Mapping :: RenamedSheet(back, RenamedSheet(mapping, sheet)) == sheet)
       <==> Reversible(mapping, sheet)
    ensures RenamedSheet(Undo(mapping, sheet.columns), RenamedSheet(mapping, sheet)) == sheet
       <==> Reversible(mapping, sheet)
  {
    if Reversible(mapping, sheet) {
      ReversibleIsRestored(mapping, sheet);
    }
    forall back: Mapping | RenamedSheet(back, RenamedSheet(mapping, sheet)) == sheet
      ensures Reversible(mapping, sheet)
    {
      RestoredIsReversible(mapping, sheet, back);
    }
  }

  /** Two headers of one column: the row keeps only the second value, and no renaming brings the first back. */
  lemma TwoHeadersOfOneColumn<V>(v: V, w: V)
    ensures var a, b, p := Key("a"), Key("b"), Key("p");
            var mapping, sheet := map[a := p, b := p], Sheet("sheet", [a, b], [[Cell(a, v), Cell(b, w)]], map[]);
            var renamed := RenamedSheet(mapping, sheet);
            && renamed.columns == [p, p] && renamed.rows == [[Cell(p, w)]]
            && !Reversible(mapping, sheet) && forall back: Mapping :: RenamedSheet(back, renamed) != sheet
  {
    var a, b, p := Key("a"), Key("b"), Key("p");
    var mapping, row: Row<V> := map[a := p, b := p], [Cell(a, v), Cell(b, w)];
    var sheet := Sheet("sheet", [a, b], [row], map[]);
    assert a.text[0] != b.text[0] && p.text[0] != UNKNOWN.text[0];
    assert RenamedRow(mapping, ColumnSet(sheet), row, 1) == [Cell(p, v)];
    assert RenamedRow(mapping, ColumnSet(sheet), row, 2) == [Cell(p, w)];
    assert a in AllKeys(sheet) && b in AllKeys(sheet);
    RoundTrip(mapping, sheet);
  }
}
