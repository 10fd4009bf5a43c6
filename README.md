# dumpntds in Dafny

dumpntds reads an Active Directory `ntds.dit` file, which is an ESE (JET
Blue) database, through the ESENT interop library. It exports two of its
tables, `datatable` and `link_table`, for offline analysis. The repository
holds three programs:

- `source/dumpntds/Program.cs` writes either two tab-separated files or a
  JSON document:
  - the CSV files are `datatable.csv`, restricted to the 45 allow-listed
    columns the ntdsxtract scripts need, and `linktable.csv`, with every
    column;
  - the JSON document is `ntds.json`, with a `datatable` and a `linktable`
    list of sparse objects.
- `source/Program.cs` is the older CSV-only exporter. Its per-column
  formatter has a slightly different switch.
- `source/ditjson/Program.cs` writes every column of both tables as sparse
  JSON objects. It has no per-column exception handler: an unhandled column
  type or a failing retrieval aborts the export.

The model follows the three programs module by module:

- `Esent` (esent.dfy) is the database as the exporters see it:
  - column metadata (`Column`, `Coltyp`, `CodePage`);
  - one `Record` per cursor position, which gives what each typed
    retrieval (`RetrieveColumnAs*`) and the raw `RetrieveColumn` return or
    throw;
  - tables in column and scan order;
  - `string.Format("{0}", …)` of a retrieved value (`Display`).
- `Hex` (hex.dfy) is `FormatBytes`'s `{0:x2}` loop and its inverse.
- `Decimals` (decimal.dfy) is the decimal printing of integers and its
  inverse.
- `Text` (text.dfy) covers `Replace("\0", string.Empty)`, the
  tab-separated writing loops, and how a reader splits such a line.
- `Export` (export.dfy) is the CSV export shared by the two CSV programs,
  parameterised by the per-column formatter. It holds the allow-list
  projection, the `PDNT_col` substitution, and the two files.
- `DumpNtds` (dumpntds.dfy) is dumpntds's formatter, its CSV run and its
  JSON export.
- `DumpNtdsCsv` (dumpntds_csv.dfy) is `source/Program.cs`'s formatter and
  run.
- `DitJson` (ditjson.dfy) is ditjson's failing formatter, `TableToList` and
  the root object.
- `Variants` (variants.dfy) relates the three formatters and their outputs.

Each loop of the source is a method with loop invariants. It is proved
equal to a function that states the result: `DataTableCsv`,
`LinkTableCsv`, `DataJson`, `LinkJson` or `TableRows`. Lemmas then prove
what those functions mean:
- which key holds which value;
- that `PDNT_col` is substituted;
- that the hex and decimal text reads back;
- that a line splits back into its fields;
- that the JSON objects are the non-empty part of the CSV dictionaries;
- how the three programs agree and differ.

## Model

| member | source | states |
|---|---|---|
| Hex.AppendHex | source/dumpntds/Program.cs:363-369 | the StringBuilder loop yields two hex digits per byte, in order; the result equals `LowerHex(data)` |
| Hex.LowerHexAt | source/dumpntds/Program.cs:364-367 | characters 2i and 2i+1 of the rendering are the high and low hex digits of byte i, in byte order |
| Hex.LowerHexIsLowerCase | source/dumpntds/Program.cs:366 | every character `{0:x2}` writes is one of 0-9 or a-f |
| Hex.UnHexLowerHex | source/dumpntds/Program.cs:363-369 | decoding the hex text gives back exactly the bytes it was written from |
| Decimals.Decimal | source/dumpntds/Program.cs:402-404 | the printed integer is non-empty, made of digits and an optional sign, and starts with '-' exactly when the value is negative (the sign is fixed to ASCII '-', see Left out) |
| Esent.Display | source/dumpntds/Program.cs:387-427 | `string.Format("{0}", v)` of a typed retrieval: null prints as "", a boolean as "True" exactly when true and "False" exactly when false, an integer as a numeral that parses back to it, a string as itself |
| Decimals.DecimalRoundTrip | source/dumpntds/Program.cs:410-415 | parsing the printed integer gives back the retrieved value |
| Text.StripNul | source/dumpntds/Program.cs:155 | the result holds no NUL; a string without NULs is unchanged |
| Text.StripNulKeepsOthers | source/dumpntds/Program.cs:155 | every character except NUL is kept, as often as it occurred |
| Text.StripNulAppend | source/dumpntds/Program.cs:155 | stripping distributes over concatenation, so the kept characters keep their order |
| Text.StripNulNoNewChars | source/dumpntds/Program.cs:155 | stripping introduces no character that was not already there |
| Text.WriteTabbed | source/dumpntds/Program.cs:233-243 | the field loop with its running index writes the fields with one tab between neighbours and none after the last (`JoinTabs`) |
| Text.JoinTabsEnd | source/dumpntds/Program.cs:233-243 | a written line ends with the last character of its last field |
| Text.SplitJoinTabs | source/dumpntds/Program.cs:274-290 | a line splits back into exactly its fields when no field holds a tab |
| Text.FieldCount | source/dumpntds/Program.cs:274-290 | a reader sees one extra field per tab inside a field; the count is right exactly when no field holds a tab |
| Export.RetainColumns | source/dumpntds/Program.cs:220-228 | the `userColumns.Contains` loop keeps the allow-listed columns in table order (`Retained`) |
| Export.RetainedMembership | source/dumpntds/Program.cs:220-228 | a column is kept exactly when it belongs to the table and its name is allow-listed |
| Export.RetainedAppend | source/dumpntds/Program.cs:220-228 | the filter keeps table order: it filters each part of the list and concatenates |
| Export.RetainedDistinct | source/dumpntds/Program.cs:220-228 | with unique names in the table, the kept columns have unique names |
| Export.StoreRow | source/dumpntds/Program.cs:253-270 | the per-column loop fills `obj` as `StoredRow` |
| Export.StoredRowLookup | source/dumpntds/Program.cs:253-270 | `obj` has exactly one key per column, holding that column's value with the `PDNT_col` rule applied and NULs removed |
| Export.WriteDataRow | source/dumpntds/Program.cs:272-290 | one datatable line is the allow-list entries' values (TryGetValue, "" when missing) joined by tabs |
| Export.WriteDataLines | source/dumpntds/Program.cs:233-291 | the header line, then one line per record in scan order |
| Export.ExportDataTable | source/dumpntds/Program.cs:216-294 | the file written equals `DataTableCsv`: the allow-list as header, then one line per record over the allow-listed columns |
| Export.UserColumnsLayout | source/dumpntds/Program.cs:19-63 | the allow-list has 45 entries; ATTj589993 appears at positions 25 and 35; ATTk590689 is last |
| Export.UserColumnsTabFree | source/dumpntds/Program.cs:19-63 | no allow-list entry contains a tab |
| Export.DataHeaderShape | source/dumpntds/Program.cs:233-243 | the header splits back into the 45 entries, the duplicate included, with no trailing tab |
| Export.DataFieldAbsent | source/dumpntds/Program.cs:276-283 | an allow-listed name the table lacks is written as "" |
| Export.DataFieldPresent | source/dumpntds/Program.cs:256-283 | an allow-listed name the table has is written as that column's stored value |
| Export.DataRowShape | source/dumpntds/Program.cs:250-290 | one field per allow-list entry; "" for names the table lacks; the column's stored value otherwise; no NUL; repeated entries get equal fields |
| Export.DataRowRepeatsDuplicate | source/dumpntds/Program.cs:274-289 | every datatable line has 45 fields, and fields 25 and 35 (ATTj589993) are equal |
| Export.DataRowFieldCount | source/dumpntds/Program.cs:274-290 | a datatable line splits into the header's count exactly when no value holds a tab, and then into exactly its fields |
| Export.PdntCheckedBeforeStripping | source/dumpntds/Program.cs:258-269 | an empty `PDNT_col` becomes "0"; one made only of NULs becomes ""; any other value, and any other column, is merely NUL-stripped |
| Export.LinkRowLookup | source/dumpntds/Program.cs:327-332 | the link `obj` has exactly one key per column, holding its NUL-stripped value |
| Export.FillLinkRow | source/dumpntds/Program.cs:327-332 | the per-column loop fills `obj` as `LinkRow` |
| Export.WriteLinkRow | source/dumpntds/Program.cs:325-345 | one link line is `obj[column.Name]` for every column in table order, joined by tabs |
| Export.ExportLinkTable | source/dumpntds/Program.cs:296-349 | the file written equals `LinkTableCsv`: every column name as header, then one line per record |
| Export.LinkRowShape | source/dumpntds/Program.cs:334-345 | one NUL-free field per column; the line splits back into one field per column exactly when no value holds a tab |
| Export.LinkHeaderShape | source/dumpntds/Program.cs:303-314 | the header splits back into the column names when no name holds a tab |
| Export.SameValuesSameCsv | source/dumpntds/Program.cs:250-345 | both files depend on the formatter only through its values on the table's own records and columns |
| Export.SameValuesSameRow | source/dumpntds/Program.cs:254-290 | a datatable line depends only on the formatter's values for the table's columns |
| Export.ExportCsv | source/dumpntds/Program.cs:210-214 | both tables present: both files are written in full; `datatable` missing: nothing is written; `link_table` missing: datatable.csv plus an empty linktable.csv |
| DumpNtds.FormatBytes | source/dumpntds/Program.cs:356-370 | null gives ""; otherwise the lower-case hex of the bytes; this equals `BytesText`, the value the formatter uses |
| DumpNtds.Dispatch | source/dumpntds/Program.cs:387-435 | Nil is skipped; each integral type gets its own-width call; text is decoded as Unicode exactly for the Unicode code page; Binary, LongBinary, UnsignedLongLong and unnamed types read raw bytes |
| DumpNtds.GetFormattedValue | source/dumpntds/Program.cs:379-444 | a throwing retrieval, a null value and a Nil column all give "" |
| DumpNtds.FormattedValueReadsBack | source/dumpntds/Program.cs:387-435 | an integer column reads back as the integer retrieved; a raw column reads back as its bytes, in lower-case hex, two digits per byte; a text column is the decoded string |
| DumpNtds.ExportCsv | source/dumpntds/Program.cs:94-97 | the CSV run writes `CsvFiles` with this formatter, and completes exactly when both tables exist |
| DumpNtds.Sparse | source/dumpntds/Program.cs:156-160 | keeps exactly the entries with a non-empty value, unchanged |
| DumpNtds.SparseUpdate | source/dumpntds/Program.cs:156-160 | adding a new key adds it to the sparse view exactly when its value is non-empty |
| DumpNtds.DataJsonIsSparseCsvRow | source/dumpntds/Program.cs:140-161 | a JSON datatable object is exactly the non-empty part of the CSV dictionary for the same record |
| DumpNtds.LinkJsonIsSparseCsvRow | source/dumpntds/Program.cs:189-199 | a JSON link object is exactly the non-empty part of the CSV link dictionary |
| DumpNtds.DataJsonRowKeys | source/dumpntds/Program.cs:140-161 | a column's name is a key exactly when its stored value is non-empty (so an empty `PDNT_col` is always present as "0"); it holds that value; no other key appears |
| DumpNtds.LinkJsonRowKeys | source/dumpntds/Program.cs:189-199 | a column's name is a key exactly when its NUL-stripped value is non-empty, holding that value; no other key appears |
| DumpNtds.FillDataJsonRow | source/dumpntds/Program.cs:140-161 | the loop with its `continue` builds `DataJsonRow`, and Dictionary.Add never meets an existing key |
| DumpNtds.FillLinkJsonRow | source/dumpntds/Program.cs:189-199 | the loop builds `LinkJsonRow`, and Add never meets an existing key |
| DumpNtds.FillDataJsonRows | source/dumpntds/Program.cs:137-164 | the record loop yields one object per record, in scan order (`DataJsonRows`) |
| DumpNtds.ExtractDatatableAsList | source/dumpntds/Program.cs:116-170 | one object per record in scan order, over the allow-listed columns (`DataJson`) |
| DumpNtds.ExtractLinkTableAsList | source/dumpntds/Program.cs:172-208 | one object per record over every column (`LinkJson`) |
| DumpNtds.ExportJson | source/dumpntds/Program.cs:104-114 | a root object exists exactly when both tables exist; its keys are exactly `datatable` and `linktable`, holding the two lists |
| DumpNtdsCsv.FormatBytes | source/Program.cs:301-315 | null gives null; otherwise the lower-case hex of the bytes; this equals `BytesText`, the value the formatter uses |
| DumpNtdsCsv.Dispatch | source/Program.cs:233-279 | the same calls as dumpntds for named types; the default raw-byte branch is taken exactly by Nil, Binary, LongBinary, UnsignedLongLong and unnamed types |
| DumpNtdsCsv.GetFormattedColumnData | source/Program.cs:225-293 | a throwing retrieval, a null typed value and a null byte array all give "" |
| DumpNtdsCsv.DefaultReadsRawBytes | source/Program.cs:274-284 | a default-branch column (Nil included) is written as hex that reads back as its raw bytes |
| DumpNtdsCsv.ExportDataTable | source/Program.cs:72-153 | datatable.csv equals `DataTableCsv` with this program's formatter |
| DumpNtdsCsv.ExportLinkTable | source/Program.cs:155-216 | linktable.csv equals `LinkTableCsv` with this program's formatter |
| DumpNtdsCsv.RunOptions | source/Program.cs:40-65 | the datatable, then the link table; completes exactly when both tables exist |
| DitJson.FormatBytes | source/ditjson/Program.cs:97-111 | null gives ""; otherwise the lower-case hex of the bytes |
| DitJson.Dispatch | source/ditjson/Program.cs:136-191 | Nil is skipped; exactly Binary and LongBinary read raw bytes; UnsignedLongLong uses the signed 64-bit call; exactly the unnamed types reach the throwing default |
| DitJson.GetFormattedValue | source/ditjson/Program.cs:123-194 | `link_data_v2` gives "" before any retrieval; an unnamed type fails with UnhandledColumnType; otherwise it fails exactly when the retrieval throws; Nil gives ""; a success holds no NUL |
| DitJson.IntegerReadsBack | source/ditjson/Program.cs:141-165 | an integral column reads back as the integer retrieved |
| DitJson.BytesReadBack | source/ditjson/Program.cs:180-187 | a binary column reads back as its bytes; a null one gives "" |
| DitJson.RowOfSucceeds | source/ditjson/Program.cs:218-228 | a record's object is built exactly when every column formats |
| DitJson.RowOfShape | source/ditjson/Program.cs:218-228 | a built object's keys are exactly the names of columns with a non-empty value, each holding that value |
| DitJson.NoLinkDataKey | source/ditjson/Program.cs:129-134 | `link_data_v2` never becomes a key |
| DitJson.RowsOfShape | source/ditjson/Program.cs:216-231 | the list is built exactly when every record's object is; it then has one object per record, in scan order |
| DitJson.UnhandledTypeAborts | source/ditjson/Program.cs:189-190 | a column of an unnamed type aborts the export of any table that has a record |
| DitJson.FillRow | source/ditjson/Program.cs:218-228 | the column loop returns `RowOf`, including the first failure |
| DitJson.TableToList | source/ditjson/Program.cs:205-237 | the outcome equals `TableRows`: the objects, the first failure, or a missing table |
| DitJson.RunOptions | source/ditjson/Program.cs:47-68 | the root object exists exactly when both tables export; its keys are exactly `datatable` and `linktable`; otherwise the datatable's error takes precedence |
| Variants.CsvFormattersAgree | source/Program.cs:233-279 | the two CSV formatters agree on every type except Nil, where dumpntds writes "" and Program.cs writes the raw bytes in hex |
| Variants.CsvProgramsAgree | source/Program.cs:61-62 | on a database without Nil columns the two CSV programs write the same files |
| Variants.DitJsonAgreesWithDumpNtds | source/ditjson/Program.cs:123-194 | on a shared column ditjson fails exactly when dumpntds's retrieval throws; otherwise its value is dumpntds's with the NULs removed |
| Variants.RowAgreesWithLinkJsonRow | source/ditjson/Program.cs:218-228 | with shared columns and no throwing retrieval, ditjson's object is dumpntds's link object |
| Variants.LinkTablesAgree | source/ditjson/Program.cs:205-237 | under the same conditions, ditjson's `linktable` list is dumpntds's |

## Left out

- The ESE engine and interop calls are not modelled. This covers the
  instance, the session, attaching and opening the database, opening a
  table, sequential scans and `JetSetSystemParameter`. They are foreign
  calls. A table appears as its column list and its records in scan order,
  and a retrieval as what it returns or throws (`Esent.Record`).
- Float, double, DateTime and GUID values are kept as opaque strings. Their
  `string.Format` output depends on the culture and on floating-point
  printing, which is out of scope.
- StreamWriter output is a sequence of lines, one per `WriteLine`; the line
  terminator is left out.
- `JsonConvert.SerializeObject`, `JsonSerializer.Serialize` and
  `File.WriteAllText` are left out. The JSON documents are the root
  dictionaries handed to the serializer. ditjson's serializer and
  file-write failures (`NtdsException` wrapping them) are I/O and are not
  modelled.
- Command-line parsing (`Main`, `HandleParseError`, `Options`) is left out.
  So is the `File.Exists` check, which only prints a message before
  carrying on.
- Console logging of caught exceptions is left out; it does not change what
  is written.
- The unused `currentRow` counters and the unused `temp` list carry no
  behaviour and are not modelled.
- Export.StoreRow: unique column names within a table are a precondition
  (`DistinctNames`). The ESE catalog guarantees them; with a duplicate name
  the source's `Dictionary.Add` would throw, and that path is not modelled.
  The same precondition is on the other row-filling methods and exporters.
- DumpNtds.FormattedValueReadsBack: does not model the range limits of the
  32- and 64-bit integer types. The retrieved integer is any `int`, so
  nothing depends on its width.
- Esent.Coltyp: type codes the source does not name are one constructor,
  `Other(code)`. It stands only for unnamed codes (`Esent.WellFormedColtyp`);
  the model does not carry that predicate into every precondition, so
  `Other(15)` would be treated as an unnamed type, not as LongLong.
- Decimals.Decimal: fixes the negative sign to ASCII '-'. .NET prints the
  current culture's `NumberFormatInfo.NegativeSign`, which some cultures set
  to another character (U+2212). Culture settings are not modelled, so
  `Decimals.DecimalRoundTrip` and the integer read-back lemmas hold for
  cultures whose negative sign is '-'.
- The `FormatBytes` methods render the StringBuilder loop. The formatters
  are functions and cannot call a method, so they use `BytesText` (or
  `LowerHex` in ditjson), which each method is proved to compute.

### Behaviour worth noting

These behaviours follow from the code as written; the model keeps them:

- ditjson raises `NtdsException` on a column type its switch does not name,
  as its method comments declare, and any retrieval exception ends the
  export. Neither skips the column.
- ditjson reads UnsignedLongLong with the signed 64-bit call
  (`DitJson.Dispatch`). dumpntds reads it as raw bytes.
- The `PDNT_col` substitution of "0" applies to every record whose value
  formats as empty, not only to the first record that the source comment
  mentions (`Export.Stored`).
- A tab inside a text value is written unchanged, so that line splits into
  more fields than the header (`Export.DataRowFieldCount`,
  `Export.LinkRowShape`).
