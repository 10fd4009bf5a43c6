/** source/Program.cs: the CSV-only exporter. Its formatter has no Nil
    case (Nil falls through to the raw bytes with every unnamed type), its
    FormatBytes returns null for a null array, and a null result is
    replaced by the empty string. The CSV files themselves are the shared
    export of module Export with this formatter. */
module DumpNtdsCsv {
  import opened Wrappers
  import opened Esent
  import opened Hex
  import opened Export

  /** FormatBytes with its StringBuilder loop: null for a null array,
      otherwise two lower-case hex digits per byte. The formatter is a
      function and cannot call a method, so it uses BytesText, which this
      method is proved to compute. */
  method FormatBytes(data: Option<seq<byte>>) returns (s: Option<string>)
    ensures s.None? <==> data.None?
    ensures data.Some? ==> s == Some(LowerHex(data.value))
    ensures s == BytesText(data)
  {
    if data.None? {
      return None;
    }
    var sb := AppendHex(data.value);
    s := Some(sb);
  }

  /** What FormatBytes returns, as a value (None standing for null): what
      the formatter uses. */
  function BytesText(data: Option<seq<byte>>): Option<string> {
    match data
    case None => None
    case Some(bs) => Some(LowerHex(bs))
  }

  /** The switch in GetFormattedColumnData: the typed call for each named
      type, or None for the `default` branch that reads the raw bytes.
      There is no Nil case, so Nil takes the default branch. */
  function Dispatch(t: Coltyp, cp: CodePage): (r: Option<Call>)
    ensures IntegerCall(t).Some? ==> r == IntegerCall(t)
    ensures t == Text || t == LongText ==> r == Some(AsString(cp == CpUnicode))
    ensures r.None? <==> t == Nil || t == Binary || t == LongBinary || t == UnsignedLongLong || t.Other?
  {
    match t
    case Bit => Some(AsBoolean)
    case LongLong => Some(AsInt64)
    case Currency => Some(AsInt64)
    case IEEEDouble => Some(AsDouble)
    case IEEESingle => Some(AsFloat)
    case Long => Some(AsInt32)
    case Text => Some(AsString(cp == CpUnicode))
    case LongText => Some(AsString(cp == CpUnicode))
    case Short => Some(AsInt16)
    case UnsignedByte => Some(AsByte)
    case DateTime => Some(AsDateTime)
    case UnsignedShort => Some(AsUInt16)
    case UnsignedLong => Some(AsUInt32)
    case GUID => Some(AsGuid)
    case _ => None
  }

  /** GetFormattedColumnData: the retrieval the switch picks, printed with
      `string.Format("{0}", …)` or FormatBytes; a null result becomes the
      empty string and whatever is thrown is caught as the empty string.
      A Nil column is read as raw bytes. */
  function GetFormattedColumnData(rec: Record, col: Column): (s: string)
    ensures Dispatch(col.coltyp, col.cp).Some? ==>
              var got := rec.typed(col.columnid, Dispatch(col.coltyp, col.cp).value);
              (got == Threw || got == Got(Null) ==> s == "")
    ensures Dispatch(col.coltyp, col.cp).None? ==>
              (rec.raw(col.columnid) == Threw || rec.raw(col.columnid) == Got(None) ==> s == "")
  {
    match Dispatch(col.coltyp, col.cp)
    case Some(call) =>
      (match rec.typed(col.columnid, call)
       case Threw => ""
       case Got(v) => Display(v))
    case None =>
      (match rec.raw(col.columnid)
       case Threw => ""
       case Got(data) =>
         var temp := BytesText(data);
         if temp.None? then "" else temp.value)
  }

  /** A column of the default branch, Nil included, is written as hex that
      reads back as the column's raw bytes. */
  lemma DefaultReadsRawBytes(rec: Record, col: Column)
    requires Dispatch(col.coltyp, col.cp).None?
    ensures var got := rec.raw(col.columnid);
            got.Got? && got.got.Some? ==>
              UnHex(GetFormattedColumnData(rec, col)) == Some(got.got.value)
              && |GetFormattedColumnData(rec, col)| == 2 * |got.got.value|
  {
    var got := rec.raw(col.columnid);
    if got.Got? && got.got.Some? {
      UnHexLowerHex(got.got.value);
    }
  }

  /** ExportDataTable, written with this program's formatter. */
  method ExportDataTable(t: Table) returns (lines: seq<string>)
    requires DistinctNames(t.columns)
    ensures lines == DataTableCsv(GetFormattedColumnData, t)
  {
    lines := Export.ExportDataTable(GetFormattedColumnData, t);
  }

  /** ExportLinkTable, written with this program's formatter. */
  method ExportLinkTable(t: Table) returns (lines: seq<string>)
    requires DistinctNames(t.columns)
    ensures lines == LinkTableCsv(GetFormattedColumnData, t)
  {
    lines := Export.ExportLinkTable(GetFormattedColumnData, t);
  }

  /** RunOptions: always the datatable and then the link table; there is
      no JSON output. */
  method RunOptions(db: Database) returns (files: map<string, seq<string>>, completed: bool)
    requires ValidDatabase(db)
    ensures completed <==> DataTableName in db && LinkTableName in db
    ensures files == CsvFiles(GetFormattedColumnData, db)
  {
    files, completed := Export.ExportCsv(GetFormattedColumnData, db);
  }
}
