/** How the three programs relate: the two CSV exporters differ only on
    Nil columns, and ditjson's successful values are dumpntds's with the
    NULs removed, except for `link_data_v2` and UnsignedLongLong. */
module Variants {
  import opened Wrappers
  import opened Esent
  import opened Text
  import opened Export
  import DumpNtds
  import DumpNtdsCsv
  import DitJson

  /** The two CSV formatters give the same text for every column type but
      Nil; on a Nil column dumpntds writes "" while source/Program.cs writes
      the raw bytes in hex ("" when null or when the read throws). */
  lemma CsvFormattersAgree(rec: Record, col: Column)
    ensures col.coltyp != Nil ==>
              DumpNtds.GetFormattedValue(rec, col) == DumpNtdsCsv.GetFormattedColumnData(rec, col)
    ensures col.coltyp == Nil ==> DumpNtds.GetFormattedValue(rec, col) == ""
    ensures col.coltyp == Nil ==>
              DumpNtdsCsv.GetFormattedColumnData(rec, col)
                == (match rec.raw(col.columnid)
                    case Threw => ""
                    case Got(data) => DumpNtds.BytesText(data))
  {
  }

  /** No table of the database has a Nil-typed column. */
  predicate NoNilColumns(db: Database) {
    forall name, i :: name in db && 0 <= i < |db[name].columns| ==> db[name].columns[i].coltyp != Nil
  }

  /** On a database without Nil columns the two CSV programs write the
      same files. */
  lemma CsvProgramsAgree(db: Database)
    requires NoNilColumns(db)
    ensures CsvFiles(DumpNtds.GetFormattedValue, db) == CsvFiles(DumpNtdsCsv.GetFormattedColumnData, db)
  {
    forall name | name in db
      ensures DataTableCsv(DumpNtds.GetFormattedValue, db[name])
                == DataTableCsv(DumpNtdsCsv.GetFormattedColumnData, db[name])
      ensures LinkTableCsv(DumpNtds.GetFormattedValue, db[name])
                == LinkTableCsv(DumpNtdsCsv.GetFormattedColumnData, db[name])
    {
      var t := db[name];
      forall k, i | 0 <= k < |t.records| && 0 <= i < |t.columns|
        ensures DumpNtds.GetFormattedValue(t.records[k], t.columns[i])
                  == DumpNtdsCsv.GetFormattedColumnData(t.records[k], t.columns[i])
      {
        CsvFormattersAgree(t.records[k], t.columns[i]);
      }
      SameValuesSameCsv(DumpNtds.GetFormattedValue, DumpNtdsCsv.GetFormattedColumnData, t);
    }
  }

  /** Columns on which ditjson and dumpntds make the same retrieval. */
  predicate SharedColumn(col: Column) {
    col.name != DitJson.LinkDataV2 && !col.coltyp.Other? && col.coltyp != UnsignedLongLong
  }

  /** On a shared column ditjson fails exactly when dumpntds's retrieval
      throws (where dumpntds writes ""), and otherwise gives dumpntds's
      value without its NULs. */
  lemma DitJsonAgreesWithDumpNtds(rec: Record, col: Column)
    requires SharedColumn(col)
    ensures DitJson.GetFormattedValue(rec, col).Failure?
            <==> Throws(rec, col, DumpNtds.Dispatch(col.coltyp, col.cp))
    ensures DitJson.GetFormattedValue(rec, col).Success? ==>
              DitJson.GetFormattedValue(rec, col).value == StripNul(DumpNtds.GetFormattedValue(rec, col))
  {
  }

  /** Where every column is shared and no retrieval throws, ditjson's
      object for a record is dumpntds's link table object for it. */
  lemma {:induction false} RowAgreesWithLinkJsonRow(rec: Record, cols: seq<Column>)
    requires forall i :: 0 <= i < |cols| ==> SharedColumn(cols[i])
    requires forall i :: 0 <= i < |cols| ==> !Throws(rec, cols[i], DumpNtds.Dispatch(cols[i].coltyp, cols[i].cp))
    ensures DitJson.RowOf(DitJson.GetFormattedValue, rec, cols) == Success(DumpNtds.LinkJsonRow(DumpNtds.GetFormattedValue, rec, cols))
  {
    if cols != [] {
      var n := |cols| - 1;
      RowAgreesWithLinkJsonRow(rec, cols[..n]);
      DitJsonAgreesWithDumpNtds(rec, cols[n]);
    }
  }

  /** Where every column of `link_table` is shared and nothing throws,
      ditjson's `linktable` list is the one dumpntds writes. */
  lemma LinkTablesAgree(db: Database)
    requires DitJson.LinkTableName in db
    requires var t := db[DitJson.LinkTableName];
             forall i :: 0 <= i < |t.columns| ==> SharedColumn(t.columns[i])
    requires var t := db[DitJson.LinkTableName];
             forall k, i :: 0 <= k < |t.records| && 0 <= i < |t.columns| ==>
               !Throws(t.records[k], t.columns[i], DumpNtds.Dispatch(t.columns[i].coltyp, t.columns[i].cp))
    ensures DitJson.TableRows(db, DitJson.LinkTableName) == Success(DumpNtds.LinkJson(db[DitJson.LinkTableName]))
  {
    var t := db[DitJson.LinkTableName];
    forall k | 0 <= k < |t.records|
      ensures DitJson.RowOf(DitJson.GetFormattedValue, t.records[k], t.columns) == Success(DumpNtds.LinkJsonRow(DumpNtds.GetFormattedValue, t.records[k], t.columns))
    {
      RowAgreesWithLinkJsonRow(t.records[k], t.columns);
    }
    DitJson.RowsOfShape(DitJson.GetFormattedValue, t.records, t.columns);
    var rows := DitJson.RowsOf(DitJson.GetFormattedValue, t.records, t.columns);
    assert rows.Success?;
    assert rows.value == DumpNtds.LinkJson(t);
  }
}
