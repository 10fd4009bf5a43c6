/** source/dumpntds/Program.cs: the per-column formatter with its catch-all
    handler, the CSV export built on it, and the sparse JSON export
    (`ntds.json` with a `datatable` and a `linktable` list). */
module DumpNtds {
  import opened Wrappers
  import opened Esent
  import opened Hex
  import opened Decimals
  import opened Text
  import opened Export

  // ---------------------------------------------------------------------
  // Formatting one column

  /** FormatBytes with its StringBuilder loop: a null array gives the
      empty string, otherwise two lower-case hex digits per byte. The
      formatter is a function and cannot call a method, so it uses
      BytesText, which this method is proved to compute. */
  method FormatBytes(data: Option<seq<byte>>) returns (s: string)
    ensures data.None? ==> s == ""
    ensures data.Some? ==> s == LowerHex(data.value)
    ensures s == BytesText(data)
  {
    if data.None? {
      return "";
    }
    s := AppendHex(data.value);
  }

  /** The text FormatBytes produces, as a value: what the formatter uses. */
  function BytesText(data: Option<seq<byte>>): string {
    match data
    case None => ""
    case Some(bs) => LowerHex(bs)
  }

  /** The switch in GetFormattedValue: which retrieval each column type
      gets. Nil is skipped; LongLong and Currency share the signed 64-bit
      call, as every integral type follows its reference call; text is read
      as Unicode exactly when the column's code page is Unicode; Binary,
      LongBinary and every type the switch does not name fall through to
      the raw bytes. */
  function Dispatch(t: Coltyp, cp: CodePage): (r: Retrieval)
    ensures r == Skip <==> t == Nil
    ensures IntegerCall(t).Some? ==> r == Typed(IntegerCall(t).value)
    ensures t == Text || t == LongText ==> r == Typed(AsString(cp == CpUnicode))
    ensures r == Raw <==> t == Binary || t == LongBinary || t == UnsignedLongLong || t.Other?
  {
    match t
    case Bit => Typed(AsBoolean)
    case LongLong => Typed(AsInt64)
    case Currency => Typed(AsInt64)
    case IEEEDouble => Typed(AsDouble)
    case IEEESingle => Typed(AsFloat)
    case Long => Typed(AsInt32)
    case Text => Typed(AsString(cp == CpUnicode))
    case LongText => Typed(AsString(cp == CpUnicode))
    case Short => Typed(AsInt16)
    case UnsignedByte => Typed(AsByte)
    case DateTime => Typed(AsDateTime)
    case UnsignedShort => Typed(AsUInt16)
    case UnsignedLong => Typed(AsUInt32)
    case GUID => Typed(AsGuid)
    case Nil => Skip
    case _ => Raw
  }

  /** GetFormattedValue: the retrieval the switch picks, printed with
      `string.Format("{0}", …)` or FormatBytes; whatever it throws is caught
      and gives the empty string. */
  function GetFormattedValue(rec: Record, col: Column): (s: string)
    ensures Throws(rec, col, Dispatch(col.coltyp, col.cp)) ==> s == ""
    ensures ReturnsNull(rec, col, Dispatch(col.coltyp, col.cp)) ==> s == ""
    ensures col.coltyp == Nil ==> s == ""
  {
    match Dispatch(col.coltyp, col.cp)
    case Skip => ""
    case Typed(call) =>
      (match rec.typed(col.columnid, call)
       case Threw => ""
       case Got(v) => Display(v))
    case Raw =>
      (match rec.raw(col.columnid)
       case Threw => ""
       case Got(data) => BytesText(data))
  }

  /** What the formatted text means: an integral column reads back as the
      integer retrieved at its own width; a column that falls through to
      the raw bytes reads back as those bytes and is lower-case hex, two
      digits per byte; a text column is the string decoded with the code
      page's encoding. */
  lemma FormattedValueReadsBack(rec: Record, col: Column)
    ensures var call := IntegerCall(col.coltyp);
            var got := if call.Some? then rec.typed(col.columnid, call.value) else Threw;
            call.Some? && got.Got? && got.got.Int? ==>
              ParseDecimal(GetFormattedValue(rec, col)) == Some(got.got.n)
    ensures var got := rec.raw(col.columnid);
            Dispatch(col.coltyp, col.cp) == Raw && got.Got? && got.got.Some? ==>
              UnHex(GetFormattedValue(rec, col)) == Some(got.got.value)
              && |GetFormattedValue(rec, col)| == 2 * |got.got.value|
              && forall j :: 0 <= j < |GetFormattedValue(rec, col)| ==> IsLowerHexChar(GetFormattedValue(rec, col)[j])
    ensures var got := rec.typed(col.columnid, AsString(col.cp == CpUnicode));
            (col.coltyp == Text || col.coltyp == LongText) && got.Got? && got.got.Str? ==>
              GetFormattedValue(rec, col) == got.got.s
  {
    var call := IntegerCall(col.coltyp);
    if call.Some? {
      var got := rec.typed(col.columnid, call.value);
      if got.Got? && got.got.Int? {
        DecimalRoundTrip(got.got.n);
      }
    }
    var raw := rec.raw(col.columnid);
    if Dispatch(col.coltyp, col.cp) == Raw && raw.Got? && raw.got.Some? {
      UnHexLowerHex(raw.got.value);
      LowerHexIsLowerCase(raw.got.value);
    }
  }

  // ---------------------------------------------------------------------
  // CSV

  /** ExportCsv: datatable.csv, then linktable.csv, both written with this
      program's formatter. */
  method ExportCsv(db: Database) returns (files: map<string, seq<string>>, completed: bool)
    requires ValidDatabase(db)
    ensures completed <==> DataTableName in db && LinkTableName in db
    ensures files == CsvFiles(GetFormattedValue, db)
  {
    files, completed := Export.ExportCsv(GetFormattedValue, db);
  }

  // ---------------------------------------------------------------------
  // JSON

  /** One JSON object: property name to value. */
  type JsonRow = map<string, string>

  const DataTableKey := "datatable"
  const LinkTableKey := "linktable"

  /** The entries of a dictionary whose value is not empty. */
  function Sparse(m: map<string, string>): (r: map<string, string>)
    ensures forall k :: k in r <==> k in m && m[k] != ""
    ensures forall k :: k in r ==> r[k] == m[k]
  {
    map k | k in m && m[k] != "" :: m[k]
  }

  /** Adding an entry for a new key to a dictionary adds it to the sparse
      view exactly when its value is not empty. */
  lemma SparseUpdate(m: map<string, string>, k: string, v: string)
    requires k !in m
    ensures Sparse(m[k := v]) == if v != "" then Sparse(m)[k := v] else Sparse(m)
  {
  }

  /** The object ExtractDatatableAsList builds for one record, column by
      column: an empty `PDNT_col` becomes "0", any other value is added
      NUL-stripped, and only when that leaves something. */
  function DataJsonRow(fmt: Formatter, rec: Record, cols: seq<Column>): JsonRow {
    if cols == [] then map[]
    else
      var c := cols[|cols| - 1];
      var obj := DataJsonRow(fmt, rec, cols[..|cols| - 1]);
      var formattedData := fmt(rec, c);
      if c.name == PdntColumn && |formattedData| == 0 then obj[c.name := "0"]
      else if StripNul(formattedData) != "" then obj[c.name := StripNul(formattedData)]
      else obj
  }

  /** The object ExtractLinkTableAsList builds for one record: each
      column's NUL-stripped value, when that is not empty. */
  function LinkJsonRow(fmt: Formatter, rec: Record, cols: seq<Column>): JsonRow {
    if cols == [] then map[]
    else
      var c := cols[|cols| - 1];
      var obj := LinkJsonRow(fmt, rec, cols[..|cols| - 1]);
      var propertyValue := StripNul(fmt(rec, c));
      if propertyValue != "" then obj[c.name := propertyValue] else obj
  }

  /** A JSON datatable object holds exactly the non-empty entries of the
      dictionary the CSV export fills for the same record: the same
      `PDNT_col` rule, the same NUL stripping, without the empty values. */
  lemma {:induction false} DataJsonIsSparseCsvRow(fmt: Formatter, rec: Record, cols: seq<Column>)
    requires DistinctNames(cols)
    ensures DataJsonRow(fmt, rec, cols) == Sparse(StoredRow(fmt, rec, cols))
  {
    if cols != [] {
      var n := |cols| - 1;
      var c := cols[n];
      assert DistinctNames(cols[..n]);
      DataJsonIsSparseCsvRow(fmt, rec, cols[..n]);
      StoredRowLookup(fmt, rec, cols[..n]);
      assert c.name !in Names(cols[..n]);
      SparseUpdate(StoredRow(fmt, rec, cols[..n]), c.name, Stored(c.name, fmt(rec, c)));
    }
  }

  /** A JSON link table object holds exactly the non-empty entries of the
      CSV export's dictionary for the same record. */
  lemma {:induction false} LinkJsonIsSparseCsvRow(fmt: Formatter, rec: Record, cols: seq<Column>)
    requires DistinctNames(cols)
    ensures LinkJsonRow(fmt, rec, cols) == Sparse(LinkRow(fmt, rec, cols))
  {
    if cols != [] {
      var n := |cols| - 1;
      var c := cols[n];
      assert DistinctNames(cols[..n]);
      LinkJsonIsSparseCsvRow(fmt, rec, cols[..n]);
      LinkRowLookup(fmt, rec, cols[..n]);
      assert c.name !in Names(cols[..n]);
      SparseUpdate(LinkRow(fmt, rec, cols[..n]), c.name, StripNul(fmt(rec, c)));
    }
  }

  /** Which keys a JSON datatable object has: a column's name is present
      exactly when its stored value is not empty (so an empty `PDNT_col` is
      always present, as "0"), with that value; no other key appears. */
  lemma DataJsonRowKeys(fmt: Formatter, rec: Record, cols: seq<Column>)
    requires DistinctNames(cols)
    ensures forall k :: k in DataJsonRow(fmt, rec, cols) ==> k in Names(cols)
    ensures forall i :: 0 <= i < |cols| ==>
              (cols[i].name in DataJsonRow(fmt, rec, cols) <==>
                 Stored(cols[i].name, fmt(rec, cols[i])) != "")
    ensures forall i :: 0 <= i < |cols| && cols[i].name in DataJsonRow(fmt, rec, cols) ==>
              DataJsonRow(fmt, rec, cols)[cols[i].name] == Stored(cols[i].name, fmt(rec, cols[i]))
  {
    DataJsonIsSparseCsvRow(fmt, rec, cols);
    StoredRowLookup(fmt, rec, cols);
  }

  /** Which keys a JSON link table object has: a column's name is present
      exactly when its NUL-stripped value is not empty, with that value. */
  lemma LinkJsonRowKeys(fmt: Formatter, rec: Record, cols: seq<Column>)
    requires DistinctNames(cols)
    ensures forall k :: k in LinkJsonRow(fmt, rec, cols) ==> k in Names(cols)
    ensures forall i :: 0 <= i < |cols| ==>
              (cols[i].name in LinkJsonRow(fmt, rec, cols) <==> StripNul(fmt(rec, cols[i])) != "")
    ensures forall i :: 0 <= i < |cols| && cols[i].name in LinkJsonRow(fmt, rec, cols) ==>
              LinkJsonRow(fmt, rec, cols)[cols[i].name] == StripNul(fmt(rec, cols[i]))
  {
    LinkJsonIsSparseCsvRow(fmt, rec, cols);
    LinkRowLookup(fmt, rec, cols);
  }

  /** One datatable object per record, in cursor order. */
  function DataJsonRows(fmt: Formatter, records: seq<Record>, cols: seq<Column>): seq<JsonRow> {
    seq(|records|, k requires 0 <= k < |records| => DataJsonRow(fmt, records[k], cols))
  }

  /** The `datatable` list: one object per record in cursor order, over
      the allow-listed columns. */
  function DataJson(t: Table): seq<JsonRow> {
    DataJsonRows(GetFormattedValue, t.records, Retained(t.columns, UserColumns))
  }

  /** The `linktable` list: one object per record in cursor order, over
      every column. */
  function LinkJson(t: Table): seq<JsonRow> {
    seq(|t.records|, k requires 0 <= k < |t.records| => LinkJsonRow(GetFormattedValue, t.records[k], t.columns))
  }

  /** The per-column loop that fills `obj` for one datatable record. */
  method FillDataJsonRow(fmt: Formatter, rec: Record, columns: seq<Column>) returns (obj: JsonRow)
    requires DistinctNames(columns)
    ensures obj == DataJsonRow(fmt, rec, columns)
  {
    obj := map[];
    var j := 0;
    while j < |columns|
      invariant 0 <= j <= |columns|
      invariant obj == DataJsonRow(fmt, rec, columns[..j])
    {
      var property := columns[j];
      var formattedData := fmt(rec, property);
      assert DistinctNames(columns[..j]);
      DataJsonRowKeys(fmt, rec, columns[..j]);
      // Dictionary.Add never meets a key that is already present.
      assert property.name !in obj;
      assert columns[..j + 1][..j] == columns[..j];
      j := j + 1;
      if property.name == PdntColumn {
        if |formattedData| == 0 {
          obj := obj[property.name := "0"];
          continue;
        }
      }
      var propertyValue := StripNul(formattedData);
      if propertyValue != "" {
        obj := obj[property.name := propertyValue];
      }
    }
    assert columns[..j] == columns;
  }

  /** The per-column loop that fills `obj` for one link table record. */
  method FillLinkJsonRow(fmt: Formatter, rec: Record, columns: seq<Column>) returns (obj: JsonRow)
    requires DistinctNames(columns)
    ensures obj == LinkJsonRow(fmt, rec, columns)
  {
    obj := map[];
    var j := 0;
    while j < |columns|
      invariant 0 <= j <= |columns|
      invariant obj == LinkJsonRow(fmt, rec, columns[..j])
    {
      var property := columns[j];
      assert DistinctNames(columns[..j]);
      LinkJsonRowKeys(fmt, rec, columns[..j]);
      // Dictionary.Add never meets a key that is already present.
      assert property.name !in obj;
      assert columns[..j + 1][..j] == columns[..j];
      var propertyValue := StripNul(fmt(rec, property));
      if propertyValue != "" {
        obj := obj[property.name := propertyValue];
      }
      j := j + 1;
    }
    assert columns[..j] == columns;
  }

  /** The record loop of ExtractDatatableAsList: one object per record, in
      scan order. */
  method FillDataJsonRows(fmt: Formatter, records: seq<Record>, columns: seq<Column>)
    returns (datatableValues: seq<JsonRow>)
    requires DistinctNames(columns)
    ensures datatableValues == DataJsonRows(fmt, records, columns)
  {
    datatableValues := [];
    var i := 0;
    while i < |records|
      invariant 0 <= i <= |records|
      invariant |datatableValues| == i
      invariant forall k :: 0 <= k < i ==> datatableValues[k] == DataJsonRow(fmt, records[k], columns)
    {
      var obj := FillDataJsonRow(fmt, records[i], columns);
      datatableValues := datatableValues + [obj];
      i := i + 1;
    }
  }

  /** ExtractDatatableAsList: the allow-listed columns, then one object
      per record. */
  method ExtractDatatableAsList(t: Table) returns (datatableValues: seq<JsonRow>)
    requires DistinctNames(t.columns)
    ensures datatableValues == DataJson(t)
  {
    var propertyNames := RetainColumns(t.columns, UserColumns);
    RetainedDistinct(t.columns, UserColumns);
    datatableValues := FillDataJsonRows(GetFormattedValue, t.records, propertyNames);
  }

  /** ExtractLinkTableAsList: one object per record over every column. */
  method ExtractLinkTableAsList(t: Table) returns (linktableValues: seq<JsonRow>)
    requires DistinctNames(t.columns)
    ensures linktableValues == LinkJson(t)
  {
    var propertyNames := t.columns;
    linktableValues := [];
    var i := 0;
    while i < |t.records|
      invariant 0 <= i <= |t.records|
      invariant |linktableValues| == i
      invariant forall k :: 0 <= k < i ==>
                  linktableValues[k] == LinkJsonRow(GetFormattedValue, t.records[k], propertyNames)
    {
      var obj := FillLinkJsonRow(GetFormattedValue, t.records[i], propertyNames);
      linktableValues := linktableValues + [obj];
      i := i + 1;
    }
  }

  /** ExportJson: the root object `{ "datatable": …, "linktable": … }`,
      built from tables `datatable` and `link_table`; either table missing
      throws and nothing is written. */
  method ExportJson(db: Database) returns (root: Option<map<string, seq<JsonRow>>>)
    requires ValidDatabase(db)
    ensures root.Some? <==> DataTableName in db && LinkTableName in db
    ensures root.Some? ==> root.value.Keys == {DataTableKey, LinkTableKey}
    ensures root.Some? ==> root.value[DataTableKey] == DataJson(db[DataTableName])
    ensures root.Some? ==> root.value[LinkTableKey] == LinkJson(db[LinkTableName])
  {
    if DataTableName !in db {
      return None;
    }
    var datatable := ExtractDatatableAsList(db[DataTableName]);
    if LinkTableName !in db {
      return None;
    }
    var linktable := ExtractLinkTableAsList(db[LinkTableName]);
    root := Some(map[DataTableKey := datatable, LinkTableKey := linktable]);
  }
}
