/** The CSV export shared by source/dumpntds/Program.cs and
    source/Program.cs, which differ only in the per-column formatter they
    call: the allow-list projection of `datatable`, the `PDNT_col`
    substitution, and the tab-separated files for `datatable` and
    `link_table`. Each file is the sequence of lines its StreamWriter
    receives, one element per WriteLine. */
module Export {
  import opened Wrappers
  import opened Esent
  import opened Text

  /** A per-column formatter: the record under the cursor and a column to
      the string the exporter stores. */
  type Formatter = (Record, Column) -> string

  /** The Dictionary (or ExpandoObject) filled for one record. */
  type Row = map<string, string>

  const DataTableName := "datatable"
  const LinkTableName := "link_table"
  const DataTableFile := "datatable.csv"
  const LinkTableFile := "linktable.csv"
  const PdntColumn := "PDNT_col"

  /** The `datatable` columns ntdsxtract needs, in the order the CSV
      writes them. ATTj589993 is listed twice (positions 25 and 35). */
  const UserColumns: seq<string> :=
      ["DNT_col", "PDNT_col", "time_col", "Ancestors_col", "ATTb590606", "ATTm3", "ATTm589825", "ATTk589826", "ATTl131074"]
    + ["ATTl131075", "ATTq131091", "ATTq131192", "OBJ_col", "ATTi131120", "ATTb590605", "ATTr589970", "ATTm590045", "ATTm590480"]
    + ["ATTj590126", "ATTj589832", "ATTq589876", "ATTq591520", "ATTq589983", "ATTq589920", "ATTq589873", "ATTj589993", "ATTj589836"]
    + ["ATTj589922", "ATTk589914", "ATTk589879", "ATTk589918", "ATTk589984", "ATTk591734", "ATTk36", "ATTk589949", "ATTj589993"]
    + ["ATTm590443", "ATTm590187", "ATTm590188", "ATTm591788", "ATTk591823", "ATTk591822", "ATTk591789", "ATTi590943", "ATTk590689"]

  // ---------------------------------------------------------------------
  // Retained columns

  /** The table's columns whose names are on the allow-list, in table order. */
  function Retained(cols: seq<Column>, allow: seq<string>): seq<Column> {
    if cols == [] then []
    else Retained(cols[..|cols| - 1], allow)
         + (if cols[|cols| - 1].name in allow then [cols[|cols| - 1]] else [])
  }

  /** A column is retained exactly when it belongs to the table and its
      name is on the allow-list. */
  lemma {:induction false} RetainedMembership(cols: seq<Column>, allow: seq<string>)
    ensures forall c :: c in Retained(cols, allow) <==> c in cols && c.name in allow
  {
    if cols != [] {
      var n := |cols| - 1;
      RetainedMembership(cols[..n], allow);
      assert cols == cols[..n] + [cols[n]];
    }
  }

  /** Retention keeps table order: it filters each part of the column list
      separately and concatenates. */
  lemma {:induction false} RetainedAppend(a: seq<Column>, b: seq<Column>, allow: seq<string>)
    ensures Retained(a + b, allow) == Retained(a, allow) + Retained(b, allow)
    decreases |b|
  {
    if b == [] {
      assert a + b == a;
    } else {
      var n := |b| - 1;
      assert (a + b)[..|a + b| - 1] == a + b[..n];
      RetainedAppend(a, b[..n], allow);
    }
  }

  lemma {:induction false} RetainedDistinct(cols: seq<Column>, allow: seq<string>)
    requires DistinctNames(cols)
    ensures DistinctNames(Retained(cols, allow))
  {
    if cols != [] {
      var n := |cols| - 1;
      assert DistinctNames(cols[..n]);
      RetainedDistinct(cols[..n], allow);
      RetainedMembership(cols[..n], allow);
      var r := Retained(cols[..n], allow);
      forall i | 0 <= i < |r|
        ensures r[i].name != cols[n].name
      {
        assert r[i] in cols[..n];
      }
    }
  }

  /** The loop that caches the allow-listed columns (`userColumns.Contains`). */
  method RetainColumns(cols: seq<Column>, allow: seq<string>) returns (columns: seq<Column>)
    ensures columns == Retained(cols, allow)
  {
    columns := [];
    var i := 0;
    while i < |cols|
      invariant 0 <= i <= |cols|
      invariant columns == Retained(cols[..i], allow)
    {
      var column := cols[i];
      assert cols[..i + 1][..i] == cols[..i];
      i := i + 1;
      if !(column.name in allow) {
        continue;
      }
      columns := columns + [column];
    }
    assert cols[..i] == cols;
  }

  // ---------------------------------------------------------------------
  // datatable.csv

  /** The value stored for a retained column: an empty `PDNT_col` (judged
      before NULs are stripped) becomes "0", everything else loses its NULs. */
  function Stored(name: string, formatted: string): string {
    if name == PdntColumn && |formatted| == 0 then "0" else StripNul(formatted)
  }

  /** The dictionary `obj` after adding every retained column, in order. */
  function StoredRow(fmt: Formatter, rec: Record, cols: seq<Column>): Row {
    if cols == [] then map[]
    else
      var c := cols[|cols| - 1];
      StoredRow(fmt, rec, cols[..|cols| - 1])[c.name := Stored(c.name, fmt(rec, c))]
  }

  /** The dictionary has an entry for exactly the columns' names. */
  lemma {:induction false} StoredRowKeys(fmt: Formatter, rec: Record, cols: seq<Column>)
    ensures forall k :: k in StoredRow(fmt, rec, cols) <==> k in Names(cols)
  {
    if cols != [] {
      var n := |cols| - 1;
      StoredRowKeys(fmt, rec, cols[..n]);
      assert Names(cols) == Names(cols[..n]) + [cols[n].name];
    }
  }

  /** With unique names each column's entry holds that column's stored value. */
  lemma {:induction false} StoredRowValues(fmt: Formatter, rec: Record, cols: seq<Column>)
    requires DistinctNames(cols)
    ensures forall i :: 0 <= i < |cols| ==>
              cols[i].name in StoredRow(fmt, rec, cols)
              && StoredRow(fmt, rec, cols)[cols[i].name] == Stored(cols[i].name, fmt(rec, cols[i]))
  {
    if cols != [] {
      var n := |cols| - 1;
      var prev := cols[..n];
      var c := cols[n];
      assert DistinctNames(prev);
      StoredRowValues(fmt, rec, prev);
      var m := StoredRow(fmt, rec, prev);
      assert StoredRow(fmt, rec, cols) == m[c.name := Stored(c.name, fmt(rec, c))];
      forall i | 0 <= i < n
        ensures cols[i].name in StoredRow(fmt, rec, cols)
        ensures StoredRow(fmt, rec, cols)[cols[i].name] == Stored(cols[i].name, fmt(rec, cols[i]))
      {
        assert prev[i] == cols[i] && cols[i].name != c.name;
      }
    }
  }

  /** With unique names the dictionary holds exactly one entry per column,
      holding that column's stored value. */
  lemma StoredRowLookup(fmt: Formatter, rec: Record, cols: seq<Column>)
    requires DistinctNames(cols)
    ensures forall k :: k in StoredRow(fmt, rec, cols) <==> k in Names(cols)
    ensures forall i :: 0 <= i < |cols| ==>
              StoredRow(fmt, rec, cols)[cols[i].name] == Stored(cols[i].name, fmt(rec, cols[i]))
  {
    StoredRowKeys(fmt, rec, cols);
    StoredRowValues(fmt, rec, cols);
  }



  /** TryGetValue with an empty string for a missing key. */
  function Field(m: Row, key: string): string {
    if key in m then m[key] else ""
  }

  /** Reference meaning of one datatable CSV field: the stored value of the
      retained column of that name, or "" when no retained column has it. */
  function DataField(fmt: Formatter, rec: Record, cols: seq<Column>, name: string): string {
    match FindColumn(cols, name)
    case None => ""
    case Some(i) => Stored(name, fmt(rec, cols[i]))
  }

  /** The fields of one datatable line: one per header entry, in header
      order. */
  function DataRowFields(fmt: Formatter, rec: Record, cols: seq<Column>, header: seq<string>): seq<string> {
    seq(|header|, p requires 0 <= p < |header| => DataField(fmt, rec, cols, header[p]))
  }

  /** A header line, then one line per record over the given columns. */
  function DataLines(fmt: Formatter, records: seq<Record>, cols: seq<Column>, header: seq<string>): seq<string> {
    [JoinTabs(header)]
      + seq(|records|, k requires 0 <= k < |records| => JoinTabs(DataRowFields(fmt, records[k], cols, header)))
  }

  /** The whole of datatable.csv: the allow-list as header, then one line
      per record in cursor order, over the allow-listed columns. */
  function DataTableCsv(fmt: Formatter, t: Table): seq<string> {
    DataLines(fmt, t.records, Retained(t.columns, UserColumns), UserColumns)
  }

  /** The per-column loop that fills `obj` for one record. */
  method StoreRow(fmt: Formatter, rec: Record, columns: seq<Column>) returns (obj: Row)
    requires DistinctNames(columns)
    ensures obj == StoredRow(fmt, rec, columns)
  {
    obj := map[];
    var j := 0;
    while j < |columns|
      invariant 0 <= j <= |columns|
      invariant obj == StoredRow(fmt, rec, columns[..j])
    {
      var column := columns[j];
      var formattedData := fmt(rec, column);
      assert DistinctNames(columns[..j]);
      StoredRowLookup(fmt, rec, columns[..j]);
      // Dictionary.Add never meets a key that is already present.
      assert column.name !in obj;
      assert columns[..j + 1][..j] == columns[..j];
      j := j + 1;
      if column.name == PdntColumn {
        if |formattedData| == 0 {
          obj := obj[column.name := "0"];
          continue;
        }
      }
      obj := obj[column.name := StripNul(formattedData)];
    }
    assert columns[..j] == columns;
  }

  /** One record of datatable.csv: fill `obj`, then write one field per
      header entry (TryGetValue, "" when missing) with tabs between. */
  method WriteDataRow(fmt: Formatter, rec: Record, columns: seq<Column>, header: seq<string>)
    returns (line: string)
    requires DistinctNames(columns)
    ensures line == JoinTabs(DataRowFields(fmt, rec, columns, header))
  {
    var obj := StoreRow(fmt, rec, columns);
    StoredRowLookup(fmt, rec, columns);
    var fields := seq(|header|, p requires 0 <= p < |header| => Field(obj, header[p]));
    forall p | 0 <= p < |header|
      ensures fields[p] == DataField(fmt, rec, columns, header[p])
    {
      var found := FindColumn(columns, header[p]);
      if found.None? {
        assert header[p] !in Names(columns);
      }
    }
    assert fields == DataRowFields(fmt, rec, columns, header);
    line := WriteTabbed(fields);
  }

  /** The header line and the record lines over the given columns. */
  method WriteDataLines(fmt: Formatter, records: seq<Record>, columns: seq<Column>, header: seq<string>)
    returns (lines: seq<string>)
    requires DistinctNames(columns)
    ensures lines == DataLines(fmt, records, columns, header)
  {
    var headerLine := WriteTabbed(header);
    lines := [headerLine];
    var i := 0;
    while i < |records|
      invariant 0 <= i <= |records|
      invariant |lines| == i + 1 && lines[0] == headerLine
      invariant forall k :: 0 <= k < i ==>
                  lines[k + 1] == JoinTabs(DataRowFields(fmt, records[k], columns, header))
    {
      var line := WriteDataRow(fmt, records[i], columns, header);
      lines := lines + [line];
      i := i + 1;
    }
  }

  /** ExportDataTable: the allow-listed columns, the header from the
      allow-list, then one line per record visited by the sequential scan. */
  method ExportDataTable(fmt: Formatter, t: Table) returns (lines: seq<string>)
    requires DistinctNames(t.columns)
    ensures lines == DataTableCsv(fmt, t)
  {
    var columns := RetainColumns(t.columns, UserColumns);
    RetainedDistinct(t.columns, UserColumns);
    lines := WriteDataLines(fmt, t.records, columns, UserColumns);
  }

  /** The allow-list has 45 entries; ATTj589993 sits at positions 25 and
      35, and the last entry is ATTk590689. */
  lemma UserColumnsLayout()
    ensures |UserColumns| == 45
    ensures UserColumns[25] == UserColumns[35] == "ATTj589993"
    ensures UserColumns[44] == "ATTk590689"
  {
  }

  /** No allow-list entry contains a tab. */
  lemma UserColumnsTabFree()
    ensures forall name :: name in UserColumns ==> Tab !in name
  {
  }

  /** The datatable header: the 45 allow-list entries, ATTj589993 at
      positions 25 and 35, joined so that a reader splits it back into
      exactly those entries (no trailing tab). */
  lemma DataHeaderShape()
    ensures |UserColumns| == 45
    ensures UserColumns[25] == UserColumns[35] == "ATTj589993"
    ensures SplitTabs(JoinTabs(UserColumns)) == UserColumns
    ensures JoinTabs(UserColumns)[|JoinTabs(UserColumns)| - 1] != Tab
  {
    UserColumnsLayout();
    UserColumnsTabFree();
    SplitJoinTabs(UserColumns);
    JoinTabsEnd(UserColumns);
  }

  /** The field written for an allow-listed name the table lacks is "". */
  lemma DataFieldAbsent(fmt: Formatter, rec: Record, tcols: seq<Column>, allow: seq<string>, name: string)
    requires name !in Names(tcols)
    ensures DataField(fmt, rec, Retained(tcols, allow), name) == ""
  {
    var cols := Retained(tcols, allow);
    var found := FindColumn(cols, name);
    if found.Some? {
      RetainedMembership(tcols, allow);
      assert cols[found.value] in tcols;
      NameListed(tcols, cols[found.value]);
    }
  }

  /** The field written for an allow-listed name the table has is that
      column's stored value. */
  lemma DataFieldPresent(fmt: Formatter, rec: Record, tcols: seq<Column>, allow: seq<string>, j: nat)
    requires DistinctNames(tcols) && j < |tcols| && tcols[j].name in allow
    ensures DataField(fmt, rec, Retained(tcols, allow), tcols[j].name) == Stored(tcols[j].name, fmt(rec, tcols[j]))
  {
    var cols := Retained(tcols, allow);
    RetainedMembership(tcols, allow);
    assert tcols[j] in cols;
    var found := FindColumn(cols, tcols[j].name);
    assert found.Some?;
    assert cols[found.value] in tcols;
    NameDetermines(tcols, cols[found.value], tcols[j]);
  }

  /** What each datatable field holds, stated against the table's own
      columns: one field per allow-list entry; "" when the table has no
      column of that name; otherwise that column's stored value, NUL-free;
      and entries listed twice repeat the same value. */
  lemma DataRowShape(fmt: Formatter, rec: Record, tcols: seq<Column>, allow: seq<string>)
    requires DistinctNames(tcols)
    ensures |DataRowFields(fmt, rec, Retained(tcols, allow), allow)| == |allow|
    ensures forall p :: 0 <= p < |allow| && allow[p] !in Names(tcols) ==>
              DataRowFields(fmt, rec, Retained(tcols, allow), allow)[p] == ""
    ensures forall p, j :: 0 <= p < |allow| && 0 <= j < |tcols| && tcols[j].name == allow[p] ==>
              DataRowFields(fmt, rec, Retained(tcols, allow), allow)[p] == Stored(allow[p], fmt(rec, tcols[j]))
    ensures forall p :: 0 <= p < |allow| ==> '\0' !in DataRowFields(fmt, rec, Retained(tcols, allow), allow)[p]
    ensures forall p, q :: 0 <= p < |allow| && 0 <= q < |allow| && allow[p] == allow[q] ==>
              DataRowFields(fmt, rec, Retained(tcols, allow), allow)[p]
                == DataRowFields(fmt, rec, Retained(tcols, allow), allow)[q]
  {
    forall p | 0 <= p < |allow|
      ensures allow[p] !in Names(tcols) ==> DataRowFields(fmt, rec, Retained(tcols, allow), allow)[p] == ""
      ensures forall j :: 0 <= j < |tcols| && tcols[j].name == allow[p] ==>
                DataRowFields(fmt, rec, Retained(tcols, allow), allow)[p] == Stored(allow[p], fmt(rec, tcols[j]))
    {
      if allow[p] !in Names(tcols) {
        DataFieldAbsent(fmt, rec, tcols, allow, allow[p]);
      }
      forall j | 0 <= j < |tcols| && tcols[j].name == allow[p]
        ensures DataRowFields(fmt, rec, Retained(tcols, allow), allow)[p] == Stored(allow[p], fmt(rec, tcols[j]))
      {
        DataFieldPresent(fmt, rec, tcols, allow, j);
      }
    }
  }

  /** In datatable.csv itself: 45 fields per line, and ATTj589993's value
      written twice, at positions 25 and 35. */
  lemma DataRowRepeatsDuplicate(fmt: Formatter, rec: Record, tcols: seq<Column>)
    requires DistinctNames(tcols)
    ensures |DataRowFields(fmt, rec, Retained(tcols, UserColumns), UserColumns)| == 45
    ensures DataRowFields(fmt, rec, Retained(tcols, UserColumns), UserColumns)[25]
              == DataRowFields(fmt, rec, Retained(tcols, UserColumns), UserColumns)[35]
  {
    UserColumnsLayout();
    DataRowShape(fmt, rec, tcols, UserColumns);
  }

  /** A datatable line splits back into its fields exactly when no field
      holds a tab; a tab inside a text value shifts every later column. */
  lemma DataRowFieldCount(fmt: Formatter, rec: Record, cols: seq<Column>, header: seq<string>)
    requires |header| > 0
    ensures |SplitTabs(JoinTabs(DataRowFields(fmt, rec, cols, header)))| == |header|
            <==> forall p :: 0 <= p < |header| ==> Tab !in DataRowFields(fmt, rec, cols, header)[p]
    ensures (forall p :: 0 <= p < |header| ==> Tab !in DataRowFields(fmt, rec, cols, header)[p]) ==>
            SplitTabs(JoinTabs(DataRowFields(fmt, rec, cols, header))) == DataRowFields(fmt, rec, cols, header)
  {
    var fields := DataRowFields(fmt, rec, cols, header);
    FieldCount(fields);
    if forall p :: 0 <= p < |header| ==> Tab !in fields[p] {
      SplitJoinTabs(fields);
    }
  }

  /** The PDNT_col check looks at the formatted value before NULs are
      stripped: an empty value becomes "0", a value made only of NULs
      becomes "", and every other value is merely stripped. */
  lemma PdntCheckedBeforeStripping(formatted: string)
    ensures Stored(PdntColumn, "") == "0"
    ensures Stored(PdntColumn, "\0") == ""
    ensures formatted != "" ==> Stored(PdntColumn, formatted) == StripNul(formatted)
    ensures forall name :: name != PdntColumn ==> Stored(name, formatted) == StripNul(formatted)
  {
    assert StripNul("\0") == "" + StripNul("");
  }

  // ---------------------------------------------------------------------
  // linktable.csv

  /** The dictionary `obj` after adding every column's NUL-stripped value. */
  function LinkRow(fmt: Formatter, rec: Record, cols: seq<Column>): Row {
    if cols == [] then map[]
    else
      var c := cols[|cols| - 1];
      LinkRow(fmt, rec, cols[..|cols| - 1])[c.name := StripNul(fmt(rec, c))]
  }

  lemma {:induction false} LinkRowLookup(fmt: Formatter, rec: Record, cols: seq<Column>)
    requires DistinctNames(cols)
    ensures forall k :: k in LinkRow(fmt, rec, cols) <==> k in Names(cols)
    ensures forall i :: 0 <= i < |cols| ==>
              LinkRow(fmt, rec, cols)[cols[i].name] == StripNul(fmt(rec, cols[i]))
  {
    if cols != [] {
      var n := |cols| - 1;
      var prev := cols[..n];
      var c := cols[n];
      assert DistinctNames(prev);
      LinkRowLookup(fmt, rec, prev);
      var m := LinkRow(fmt, rec, prev);
      assert LinkRow(fmt, rec, cols) == m[c.name := StripNul(fmt(rec, c))];
      assert Names(cols) == Names(prev) + [c.name];
      forall i | 0 <= i < n
        ensures LinkRow(fmt, rec, cols)[cols[i].name] == StripNul(fmt(rec, cols[i]))
      {
        assert prev[i] == cols[i] && cols[i].name != c.name;
      }
    }
  }


  /** Reference meaning of a link table line: every column's NUL-stripped
      value, in table order. */
  function LinkRowFields(fmt: Formatter, rec: Record, cols: seq<Column>): seq<string> {
    seq(|cols|, i requires 0 <= i < |cols| => StripNul(fmt(rec, cols[i])))
  }

  function LinkTableCsv(fmt: Formatter, t: Table): seq<string> {
    [JoinTabs(Names(t.columns))]
      + seq(|t.records|, k requires 0 <= k < |t.records| =>
              JoinTabs(LinkRowFields(fmt, t.records[k], t.columns)))
  }

  /** The per-column loop that fills `obj` for one link table record. */
  method FillLinkRow(fmt: Formatter, rec: Record, columns: seq<Column>) returns (obj: Row)
    requires DistinctNames(columns)
    ensures obj == LinkRow(fmt, rec, columns)
  {
    obj := map[];
    var j := 0;
    while j < |columns|
      invariant 0 <= j <= |columns|
      invariant obj == LinkRow(fmt, rec, columns[..j])
    {
      var column := columns[j];
      assert DistinctNames(columns[..j]);
      LinkRowLookup(fmt, rec, columns[..j]);
      // Dictionary.Add never meets a key that is already present.
      assert column.name !in obj;
      assert columns[..j + 1][..j] == columns[..j];
      obj := obj[column.name := StripNul(fmt(rec, column))];
      j := j + 1;
    }
    assert columns[..j] == columns;
  }

  /** One record of linktable.csv: fill `obj`, then write `obj[column.Name]`
      for every column in table order. */
  method WriteLinkRow(fmt: Formatter, rec: Record, columns: seq<Column>) returns (line: string)
    requires DistinctNames(columns)
    ensures line == JoinTabs(LinkRowFields(fmt, rec, columns))
  {
    var obj := FillLinkRow(fmt, rec, columns);
    LinkRowLookup(fmt, rec, columns);
    var fields := seq(|columns|, i requires 0 <= i < |columns| => obj[columns[i].name]);
    assert fields == LinkRowFields(fmt, rec, columns);
    line := WriteTabbed(fields);
  }

  /** ExportLinkTable: every column name as the header, then one line per
      record. */
  method ExportLinkTable(fmt: Formatter, t: Table) returns (lines: seq<string>)
    requires DistinctNames(t.columns)
    ensures lines == LinkTableCsv(fmt, t)
  {
    var header := WriteTabbed(Names(t.columns));
    lines := [header];
    var i := 0;
    while i < |t.records|
      invariant 0 <= i <= |t.records|
      invariant |lines| == i + 1 && lines[0] == header
      invariant forall k :: 0 <= k < i ==>
                  lines[k + 1] == JoinTabs(LinkRowFields(fmt, t.records[k], t.columns))
    {
      var line := WriteLinkRow(fmt, t.records[i], t.columns);
      lines := lines + [line];
      i := i + 1;
    }
  }

  /** A link table line has one field per column, each the column's
      NUL-stripped value; a reader splits it back into those fields exactly
      when none holds a tab. */
  lemma LinkRowShape(fmt: Formatter, rec: Record, cols: seq<Column>)
    requires |cols| > 0
    ensures |LinkRowFields(fmt, rec, cols)| == |cols|
    ensures forall i :: 0 <= i < |cols| ==> '\0' !in LinkRowFields(fmt, rec, cols)[i]
    ensures |SplitTabs(JoinTabs(LinkRowFields(fmt, rec, cols)))| == |cols|
            <==> forall i :: 0 <= i < |cols| ==> Tab !in LinkRowFields(fmt, rec, cols)[i]
  {
    var fields := LinkRowFields(fmt, rec, cols);
    assert |fields| == |cols|;
    forall i | 0 <= i < |cols|
      ensures '\0' !in fields[i]
    {
      assert fields[i] == StripNul(fmt(rec, cols[i]));
    }
    FieldCount(fields);
    assert |SplitTabs(JoinTabs(fields))| == |fields| <==> forall i :: 0 <= i < |fields| ==> Tab !in fields[i];
  }

  /** The link table header splits back into the column names when no
      name holds a tab. */
  lemma LinkHeaderShape(cols: seq<Column>)
    requires |cols| > 0
    requires forall i :: 0 <= i < |cols| ==> Tab !in cols[i].name
    ensures SplitTabs(JoinTabs(Names(cols))) == Names(cols)
  {
    var names := Names(cols);
    assert forall i :: 0 <= i < |names| ==> Tab !in names[i];
    SplitJoinTabs(names);
  }

  /** Both files depend on the formatter only through the values it gives
      for the table's own records and columns. */
  lemma SameValuesSameCsv(f: Formatter, g: Formatter, t: Table)
    requires forall k, i :: 0 <= k < |t.records| && 0 <= i < |t.columns| ==>
               f(t.records[k], t.columns[i]) == g(t.records[k], t.columns[i])
    ensures DataTableCsv(f, t) == DataTableCsv(g, t)
    ensures LinkTableCsv(f, t) == LinkTableCsv(g, t)
  {
    forall k | 0 <= k < |t.records|
      ensures DataRowFields(f, t.records[k], Retained(t.columns, UserColumns), UserColumns)
                == DataRowFields(g, t.records[k], Retained(t.columns, UserColumns), UserColumns)
      ensures LinkRowFields(f, t.records[k], t.columns) == LinkRowFields(g, t.records[k], t.columns)
    {
      SameValuesSameRow(f, g, t.records[k], t.columns, UserColumns);
    }
    assert DataTableCsv(f, t) == DataTableCsv(g, t);
  }

  lemma SameValuesSameRow(f: Formatter, g: Formatter, rec: Record, tcols: seq<Column>, allow: seq<string>)
    requires forall i :: 0 <= i < |tcols| ==> f(rec, tcols[i]) == g(rec, tcols[i])
    ensures DataRowFields(f, rec, Retained(tcols, allow), allow) == DataRowFields(g, rec, Retained(tcols, allow), allow)
  {
    var cols := Retained(tcols, allow);
    RetainedMembership(tcols, allow);
    forall p | 0 <= p < |allow|
      ensures DataField(f, rec, cols, allow[p]) == DataField(g, rec, cols, allow[p])
    {
      var found := FindColumn(cols, allow[p]);
      if found.Some? {
        assert cols[found.value] in tcols;
      }
    }
  }

  // ---------------------------------------------------------------------
  // Both files

  /** The files a CSV run leaves behind, when the database holds both
      tables, and the point where it stops otherwise: a missing `datatable`
      throws before any file is opened; a missing `link_table` throws after
      datatable.csv is written and linktable.csv has been created empty. */
  function CsvFiles(fmt: Formatter, db: Database): map<string, seq<string>> {
    if DataTableName !in db then map[]
    else map[DataTableFile := DataTableCsv(fmt, db[DataTableName]),
             LinkTableFile := if LinkTableName in db then LinkTableCsv(fmt, db[LinkTableName]) else []]
  }

  /** ExportCsv: the datatable, then the link table. */
  method ExportCsv(fmt: Formatter, db: Database) returns (files: map<string, seq<string>>, completed: bool)
    requires ValidDatabase(db)
    ensures completed <==> DataTableName in db && LinkTableName in db
    ensures files == CsvFiles(fmt, db)
  {
    files := map[];
    if DataTableName !in db {
      return files, false;
    }
    var datatable := ExportDataTable(fmt, db[DataTableName]);
    files := files[DataTableFile := datatable];
    files := files[LinkTableFile := []];
    if LinkTableName !in db {
      return files, false;
    }
    var linktable := ExportLinkTable(fmt, db[LinkTableName]);
    files := files[LinkTableFile := linktable];
    completed := true;
  }
}
