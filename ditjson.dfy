/** source/ditjson/Program.cs: every column of `datatable` and
    `link_table` as sparse JSON objects. Unlike dumpntds there is no
    per-column catch: an unhandled column type raises NtdsException, and
    that or any retrieval failure aborts the whole export. */
module DitJson {
  import opened Wrappers
  import opened Esent
  import opened Hex
  import opened Text

  /** Why the export stops: NtdsException for a column type the switch
      does not handle, an exception out of a retrieval call, or a table the
      database does not have. */
  datatype NtdsError =
    | UnhandledColumnType(coltyp: Coltyp, columnid: nat)
    | RetrievalFailed(columnid: nat)
    | TableNotFound(name: string)

  /** One JSON object: property name to value. */
  type JsonRow = map<string, string>

  const LinkDataV2 := "link_data_v2"
  const DataTableName := "datatable"
  const LinkTableName := "link_table"
  const DataTableKey := "datatable"
  const LinkTableKey := "linktable"

  /** FormatBytes with its StringBuilder loop: a null array gives the
      empty string, otherwise two lower-case hex digits per byte. The
      formatter only calls it on a non-null array; being a function, it
      uses LowerHex, which this method is proved to compute. */
  method FormatBytes(data: Option<seq<byte>>) returns (s: string)
    ensures data.None? ==> s == ""
    ensures data.Some? ==> s == LowerHex(data.value)
  {
    if data.None? {
      return "";
    }
    s := AppendHex(data.value);
  }

  /** The switch in GetFormattedValue: the retrieval for each type it
      names, or None for the `default` branch that throws. UnsignedLongLong
      is read with the signed 64-bit call, like LongLong and Currency. */
  function Dispatch(t: Coltyp, cp: CodePage): (r: Option<Retrieval>)
    ensures r == Some(Skip) <==> t == Nil
    ensures r == Some(Raw) <==> t == Binary || t == LongBinary
    ensures IntegerCall(t).Some? ==> r == Some(Typed(IntegerCall(t).value))
    ensures t == UnsignedLongLong ==> r == Some(Typed(AsInt64))
    ensures t == Text || t == LongText ==> r == Some(Typed(AsString(cp == CpUnicode)))
    ensures r.None? <==> t.Other?
  {
    match t
    case Bit => Some(Typed(AsBoolean))
    case LongLong => Some(Typed(AsInt64))
    case UnsignedLongLong => Some(Typed(AsInt64))
    case Currency => Some(Typed(AsInt64))
    case IEEEDouble => Some(Typed(AsDouble))
    case IEEESingle => Some(Typed(AsFloat))
    case Long => Some(Typed(AsInt32))
    case Text => Some(Typed(AsString(cp == CpUnicode)))
    case LongText => Some(Typed(AsString(cp == CpUnicode)))
    case Short => Some(Typed(AsInt16))
    case UnsignedByte => Some(Typed(AsByte))
    case DateTime => Some(Typed(AsDateTime))
    case UnsignedShort => Some(Typed(AsUInt16))
    case UnsignedLong => Some(Typed(AsUInt32))
    case GUID => Some(Typed(AsGuid))
    case Nil => Some(Skip)
    case Binary => Some(Raw)
    case LongBinary => Some(Raw)
    case Other(_) => None
  }

  /** The value of `temp` when the switch ends: the printed retrieval, ""
      for Nil or a null byte array, or the exception that leaves the
      method. */
  function Temp(rec: Record, col: Column): Result<string, NtdsError> {
    match Dispatch(col.coltyp, col.cp)
    case None => Failure(UnhandledColumnType(col.coltyp, col.columnid))
    case Some(Skip) => Success("")
    case Some(Typed(call)) =>
      (match rec.typed(col.columnid, call)
       case Threw => Failure(RetrievalFailed(col.columnid))
       case Got(v) => Success(Display(v)))
    case Some(Raw) =>
      (match rec.raw(col.columnid)
       case Threw => Failure(RetrievalFailed(col.columnid))
       case Got(None) => Success("")
       case Got(Some(columnBytes)) => Success(LowerHex(columnBytes)))
  }

  /** GetFormattedValue: `link_data_v2` is returned as "" before any
      retrieval; otherwise the switch's `temp` with its NULs removed, or the
      exception that aborts the export. */
  function GetFormattedValue(rec: Record, col: Column): (r: Result<string, NtdsError>)
    ensures r.Success? ==> '\0' !in r.value
    ensures col.name == LinkDataV2 ==> r == Success("")
    ensures col.name != LinkDataV2 && col.coltyp.Other? ==>
              r == Failure(UnhandledColumnType(col.coltyp, col.columnid))
    ensures col.name != LinkDataV2 && Dispatch(col.coltyp, col.cp).Some? ==>
              (r.Failure? <==> Throws(rec, col, Dispatch(col.coltyp, col.cp).value))
    ensures col.coltyp == Nil ==> r == Success("")
  {
    if col.name == LinkDataV2 then Success("")
    else
      match Temp(rec, col)
      case Failure(e) => Failure(e)
      case Success(temp) => Success(StripNul(temp))
  }

  /** An integral column reads back as the integer retrieved
      (UnsignedLongLong through the signed call). */
  lemma IntegerReadsBack(rec: Record, col: Column)
    requires col.name != LinkDataV2
    ensures var r := Dispatch(col.coltyp, col.cp);
            r.Some? && r.value.Typed? && rec.typed(col.columnid, r.value.call).Got?
            && rec.typed(col.columnid, r.value.call).got.Int? ==>
              GetFormattedValue(rec, col).Success?
              && Decimals.ParseDecimal(GetFormattedValue(rec, col).value)
                 == Some(rec.typed(col.columnid, r.value.call).got.n)
  {
    var r := Dispatch(col.coltyp, col.cp);
    if r.Some? && r.value.Typed? {
      var got := rec.typed(col.columnid, r.value.call);
      if got.Got? && got.got.Int? {
        Decimals.DecimalRoundTrip(got.got.n);
        DecimalHasNoNul(got.got.n);
      }
    }
  }

  /** A binary column reads back as its bytes; a null one gives "". */
  lemma BytesReadBack(rec: Record, col: Column)
    requires col.name != LinkDataV2 && (col.coltyp == Binary || col.coltyp == LongBinary)
    ensures var got := rec.raw(col.columnid);
            got.Got? && got.got.Some? ==>
              GetFormattedValue(rec, col).Success?
              && UnHex(GetFormattedValue(rec, col).value) == Some(got.got.value)
    ensures rec.raw(col.columnid) == Got(None) ==> GetFormattedValue(rec, col) == Success("")
  {
    var got := rec.raw(col.columnid);
    if got.Got? && got.got.Some? {
      UnHexLowerHex(got.got.value);
      LowerHexHasNoNul(got.got.value);
    }
  }

  lemma DecimalHasNoNul(n: int)
    ensures StripNul(Decimals.Decimal(n)) == Decimals.Decimal(n)
  {
    var s := Decimals.Decimal(n);
    assert forall i :: 0 <= i < |s| ==> s[i] != '\0';
  }

  lemma LowerHexHasNoNul(bs: seq<byte>)
    ensures StripNul(LowerHex(bs)) == LowerHex(bs)
  {
    LowerHexIsLowerCase(bs);
    var s := LowerHex(bs);
    assert forall i :: 0 <= i < |s| ==> s[i] != '\0';
  }

  // ---------------------------------------------------------------------
  // Rows and tables

  /** A per-column formatter that may abort the export. */
  type Cell = (Record, Column) -> Result<string, NtdsError>

  /** The object TableToList builds for one record, column by column, or
      the first failure: only non-empty values are added. */
  function RowOf(cell: Cell, rec: Record, cols: seq<Column>): Result<JsonRow, NtdsError> {
    if cols == [] then Success(map[])
    else
      var c := cols[|cols| - 1];
      match RowOf(cell, rec, cols[..|cols| - 1])
      case Failure(e) => Failure(e)
      case Success(obj) =>
        match cell(rec, c)
        case Failure(e) => Failure(e)
        case Success(cellValue) => Success(if cellValue != "" then obj[c.name := cellValue] else obj)
  }

  /** The objects for a run of records in cursor order, or the first
      failure. */
  function RowsOf(cell: Cell, records: seq<Record>, cols: seq<Column>): Result<seq<JsonRow>, NtdsError> {
    if records == [] then Success([])
    else
      match RowsOf(cell, records[..|records| - 1], cols)
      case Failure(e) => Failure(e)
      case Success(rows) =>
        match RowOf(cell, records[|records| - 1], cols)
        case Failure(e) => Failure(e)
        case Success(obj) => Success(rows + [obj])
  }

  /** TableToList's outcome for a table name. */
  function TableRows(db: Database, tableName: string): Result<seq<JsonRow>, NtdsError> {
    if tableName !in db then Failure(TableNotFound(tableName))
    else RowsOf(GetFormattedValue, db[tableName].records, db[tableName].columns)
  }

  /** A record's object is built exactly when every column formats. */
  lemma {:induction false} RowOfSucceeds(cell: Cell, rec: Record, cols: seq<Column>)
    ensures RowOf(cell, rec, cols).Success? <==>
              forall i :: 0 <= i < |cols| ==> cell(rec, cols[i]).Success?
  {
    if cols != [] {
      var n := |cols| - 1;
      RowOfSucceeds(cell, rec, cols[..n]);
      assert cols == cols[..n] + [cols[n]];
    }
  }

  /** A built object's keys are names of the columns. */
  lemma {:induction false} RowOfKeysListed(cell: Cell, rec: Record, cols: seq<Column>)
    requires RowOf(cell, rec, cols).Success?
    ensures forall k :: k in RowOf(cell, rec, cols).value ==> k in Names(cols)
  {
    if cols != [] {
      var n := |cols| - 1;
      RowOfKeysListed(cell, rec, cols[..n]);
      assert Names(cols) == Names(cols[..n]) + [cols[n].name];
    }
  }

  /** In a built object each column's name is a key exactly when its value
      is not empty, and then it holds that value. */
  lemma {:induction false} RowOfValues(cell: Cell, rec: Record, cols: seq<Column>)
    requires DistinctNames(cols) && RowOf(cell, rec, cols).Success?
    ensures forall i :: 0 <= i < |cols| ==> cell(rec, cols[i]).Success?
    ensures forall i :: 0 <= i < |cols| ==>
              (cols[i].name in RowOf(cell, rec, cols).value <==> cell(rec, cols[i]).value != "")
    ensures forall i :: 0 <= i < |cols| && cols[i].name in RowOf(cell, rec, cols).value ==>
              RowOf(cell, rec, cols).value[cols[i].name] == cell(rec, cols[i]).value
  {
    RowOfSucceeds(cell, rec, cols);
    if cols != [] {
      var n := |cols| - 1;
      var prev := cols[..n];
      var c := cols[n];
      assert DistinctNames(prev);
      RowOfSucceeds(cell, rec, prev);
      RowOfValues(cell, rec, prev);
      RowOfKeysListed(cell, rec, prev);
      assert c.name !in Names(prev);
      var obj := RowOf(cell, rec, prev).value;
      var v := cell(rec, c).value;
      assert RowOf(cell, rec, cols).value == if v != "" then obj[c.name := v] else obj;
      forall i | 0 <= i < n
        ensures cols[i].name in RowOf(cell, rec, cols).value <==> cell(rec, cols[i]).value != ""
        ensures cols[i].name in RowOf(cell, rec, cols).value ==>
                  RowOf(cell, rec, cols).value[cols[i].name] == cell(rec, cols[i]).value
      {
        assert prev[i] == cols[i] && cols[i].name != c.name;
      }
    }
  }


  /** A record's object is built exactly when every column formats, and
      then its keys are exactly the columns whose value is not empty, each
      holding that value. */
  lemma RowOfShape(cell: Cell, rec: Record, cols: seq<Column>)
    requires DistinctNames(cols)
    ensures RowOf(cell, rec, cols).Success? <==>
              forall i :: 0 <= i < |cols| ==> cell(rec, cols[i]).Success?
    ensures RowOf(cell, rec, cols).Success? ==>
              (forall k :: k in RowOf(cell, rec, cols).value ==> k in Names(cols))
              && (forall i :: 0 <= i < |cols| ==>
                    (cols[i].name in RowOf(cell, rec, cols).value <==> cell(rec, cols[i]).value != ""))
              && (forall i :: 0 <= i < |cols| && cols[i].name in RowOf(cell, rec, cols).value ==>
                    RowOf(cell, rec, cols).value[cols[i].name] == cell(rec, cols[i]).value)
  {
    RowOfSucceeds(cell, rec, cols);
    if RowOf(cell, rec, cols).Success? {
      RowOfKeysListed(cell, rec, cols);
      RowOfValues(cell, rec, cols);
    }
  }

  /** The `link_data_v2` column never becomes a key. */
  lemma NoLinkDataKey(rec: Record, cols: seq<Column>)
    requires DistinctNames(cols)
    ensures RowOf(GetFormattedValue, rec, cols).Success? ==> LinkDataV2 !in RowOf(GetFormattedValue, rec, cols).value
  {
    RowOfShape(GetFormattedValue, rec, cols);
  }

  /** A table's rows are produced exactly when every record's object is:
      then there is one object per record, in cursor order. */
  lemma {:induction false} RowsOfShape(cell: Cell, records: seq<Record>, cols: seq<Column>)
    ensures RowsOf(cell, records, cols).Success? <==>
              forall k :: 0 <= k < |records| ==> RowOf(cell, records[k], cols).Success?
    ensures RowsOf(cell, records, cols).Success? ==>
              |RowsOf(cell, records, cols).value| == |records|
              && forall k :: 0 <= k < |records| ==>
                   RowsOf(cell, records, cols).value[k] == RowOf(cell, records[k], cols).value
  {
    if records != [] {
      var n := |records| - 1;
      RowsOfShape(cell, records[..n], cols);
      assert records == records[..n] + [records[n]];
    }
  }

  /** An unhandled column type aborts the export of any table that has a
      record, whatever the other columns hold. */
  lemma UnhandledTypeAborts(db: Database, tableName: string, i: nat)
    requires tableName in db && |db[tableName].records| > 0
    requires DistinctNames(db[tableName].columns)
    requires i < |db[tableName].columns|
    requires db[tableName].columns[i].coltyp.Other? && db[tableName].columns[i].name != LinkDataV2
    ensures TableRows(db, tableName).Failure?
  {
    var t := db[tableName];
    RowOfShape(GetFormattedValue, t.records[0], t.columns);
    RowsOfShape(GetFormattedValue, t.records, t.columns);
  }

  /** The per-column loop of TableToList for one record. */
  method FillRow(cell: Cell, rec: Record, columns: seq<Column>) returns (r: Result<JsonRow, NtdsError>)
    requires DistinctNames(columns)
    ensures r == RowOf(cell, rec, columns)
  {
    var obj: JsonRow := map[];
    var j := 0;
    while j < |columns|
      invariant 0 <= j <= |columns|
      invariant RowOf(cell, rec, columns[..j]) == Success(obj)
    {
      var column := columns[j];
      assert columns[..j + 1][..j] == columns[..j];
      var formattedData := cell(rec, column);
      if formattedData.Failure? {
        PrefixFailure(cell, rec, columns, j + 1);
        return Failure(formattedData.error);
      }
      var cellValue := formattedData.value;
      if cellValue != "" {
        assert DistinctNames(columns[..j]);
        RowOfShape(cell, rec, columns[..j]);
        // Dictionary.Add never meets a key that is already present.
        assert column.name !in obj;
        obj := obj[column.name := cellValue];
      }
      j := j + 1;
    }
    assert columns[..j] == columns;
    r := Success(obj);
  }

  /** Once a prefix of the columns fails, the whole row fails with the
      same error. */
  lemma {:induction false} PrefixFailure(cell: Cell, rec: Record, cols: seq<Column>, j: nat)
    requires j <= |cols| && RowOf(cell, rec, cols[..j]).Failure?
    ensures RowOf(cell, rec, cols) == RowOf(cell, rec, cols[..j])
    decreases |cols| - j
  {
    if j < |cols| {
      var m := |cols| - 1;
      assert cols[..m][..j] == cols[..j];
      PrefixFailure(cell, rec, cols[..m], j);
    } else {
      assert cols[..j] == cols;
    }
  }

  /** Once a prefix of the records fails, the whole table fails with the
      same error. */
  lemma {:induction false} RecordsPrefixFailure(cell: Cell, records: seq<Record>, cols: seq<Column>, i: nat)
    requires i <= |records| && RowsOf(cell, records[..i], cols).Failure?
    ensures RowsOf(cell, records, cols) == RowsOf(cell, records[..i], cols)
    decreases |records| - i
  {
    if i < |records| {
      var m := |records| - 1;
      assert records[..m][..i] == records[..i];
      RecordsPrefixFailure(cell, records[..m], cols, i);
    } else {
      assert records[..i] == records;
    }
  }

  /** TableToList: the table's columns, then one object per record; the
      first failure propagates. */
  method TableToList(db: Database, tableName: string) returns (r: Result<seq<JsonRow>, NtdsError>)
    requires ValidDatabase(db)
    ensures r == TableRows(db, tableName)
  {
    if tableName !in db {
      return Failure(TableNotFound(tableName));
    }
    var t := db[tableName];
    var columns := t.columns;
    var values: seq<JsonRow> := [];
    var i := 0;
    while i < |t.records|
      invariant 0 <= i <= |t.records|
      invariant RowsOf(GetFormattedValue, t.records[..i], columns) == Success(values)
    {
      assert t.records[..i + 1][..i] == t.records[..i];
      var obj := FillRow(GetFormattedValue, t.records[i], columns);
      if obj.Failure? {
        RecordsPrefixFailure(GetFormattedValue, t.records, columns, i + 1);
        return Failure(obj.error);
      }
      values := values + [obj.value];
      i := i + 1;
    }
    assert t.records[..i] == t.records;
    r := Success(values);
  }

  /** RunOptions: the root object `{ "datatable": …, "linktable": … }` from
      tables `datatable` and `link_table`, or the first error (the
      datatable's before the link table's). */
  method RunOptions(db: Database) returns (r: Result<map<string, seq<JsonRow>>, NtdsError>)
    requires ValidDatabase(db)
    ensures r.Success? <==> TableRows(db, DataTableName).Success? && TableRows(db, LinkTableName).Success?
    ensures r.Success? ==> r.value.Keys == {DataTableKey, LinkTableKey}
    ensures r.Success? ==> r.value[DataTableKey] == TableRows(db, DataTableName).value
    ensures r.Success? ==> r.value[LinkTableKey] == TableRows(db, LinkTableName).value
    ensures TableRows(db, DataTableName).Failure? ==> r == Failure(TableRows(db, DataTableName).error)
    ensures TableRows(db, DataTableName).Success? && TableRows(db, LinkTableName).Failure? ==>
              r == Failure(TableRows(db, LinkTableName).error)
  {
    var datatable := TableToList(db, DataTableName);
    if datatable.Failure? {
      return Failure(datatable.error);
    }
    var linktable := TableToList(db, LinkTableName);
    if linktable.Failure? {
      return Failure(linktable.error);
    }
    r := Success(map[DataTableKey := datatable.value, LinkTableKey := linktable.value]);
  }
}
