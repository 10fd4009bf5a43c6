/** The ESE (ESENT) database as the exporters see it through the interop
    library: column metadata, one record per cursor position, and what each
    retrieval call hands back. The engine itself and the calls are not
    modelled; their outcomes are inputs. */
module Esent {
  import opened Wrappers
  import opened Hex
  import opened Decimals

  /** JET_coltyp together with the Vista and Windows 10 additions. Other
      stands for a type code not named here (such as the retired SLV type
      13); `code` is the raw value, never one of the named codes (see
      UnnamedCode): a column of a named type is always its own constructor. */
  datatype Coltyp =
    | Nil | Bit | UnsignedByte | Short | Long | Currency | IEEESingle
    | IEEEDouble | DateTime | Binary | Text | LongBinary | LongText
    | UnsignedLong | LongLong | GUID | UnsignedShort | UnsignedLongLong
    | Other(code: int)

  /** The codes of the named types: Nil 0 through LongText 12, then
      UnsignedLong 14, LongLong 15, GUID 16, UnsignedShort 17 and
      UnsignedLongLong 18. */
  predicate UnnamedCode(code: int) {
    code < 0 || code == 13 || code > 18
  }

  /** A type as the catalog reports it: Other only for unnamed codes. */
  predicate WellFormedColtyp(t: Coltyp) {
    t.Other? ==> UnnamedCode(t.code)
  }

  /** JET_CP: the code page of a text column. */
  datatype CodePage = CpNone | CpUnicode | CpAscii

  /** ColumnInfo: the metadata GetTableColumns lists for one column. */
  datatype Column = Column(name: string, columnid: nat, coltyp: Coltyp, cp: CodePage)

  /** The typed retrievals, Api.RetrieveColumnAs*; AsString carries the
      encoding asked for (true for Encoding.Unicode, false for Encoding.ASCII). */
  datatype Call =
    | AsBoolean | AsByte | AsInt16 | AsUInt16 | AsInt32 | AsUInt32 | AsInt64
    | AsFloat | AsDouble | AsDateTime | AsGuid | AsString(unicode: bool)

  /** What a typed retrieval hands back: null when the column is null in
      the record, otherwise a boolean, an integer, a decoded string, or a
      float, date or GUID whose culture-dependent string form is kept as
      given. */
  datatype Value = Null | Bool(b: bool) | Int(n: int) | Str(s: string) | Opaque(shown: string)

  /** A retrieval either returns or throws. */
  datatype Fallible<T> = Got(got: T) | Threw

  /** The cursor positioned on one record: for every column id, what each
      typed retrieval returns, and what Api.RetrieveColumn returns (the raw
      bytes, or null). */
  datatype Record = Record(
    typed: (nat, Call) -> Fallible<Value>,
    raw: nat -> Fallible<Option<seq<byte>>>)

  /** A table: its columns in the order GetTableColumns lists them, and its
      records in the order a sequential scan (MoveBeforeFirst, TryMoveNext)
      visits them. */
  datatype Table = Table(columns: seq<Column>, records: seq<Record>)

  /** The attached database: its tables by name. */
  type Database = map<string, Table>

  /** Which retrieval a formatter makes for a column. */
  datatype Retrieval = Skip | Typed(call: Call) | Raw

  /** `string.Format("{0}", v)` of what a typed retrieval returned: null
      prints as nothing, a boolean as Boolean.ToString's "True" or "False",
      an integer as its decimal numeral, a string as itself. */
  function Display(v: Value): (s: string)
    ensures v.Null? ==> s == ""
    ensures v.Bool? ==> (s == "True" <==> v.b) && (s == "False" <==> !v.b)
    ensures v.Int? ==> ParseDecimal(s) == Some(v.n)
    ensures v.Str? ==> s == v.s
  {
    match v
    case Null => ""
    case Bool(b) => if b then "True" else "False"
    case Int(n) => DecimalRoundTrip(n); Decimal(n)
    case Str(s) => s
    case Opaque(shown) => shown
  }

  /** Does the retrieval made for this column throw on this record? */
  predicate Throws(rec: Record, col: Column, r: Retrieval) {
    match r
    case Skip => false
    case Typed(call) => rec.typed(col.columnid, call).Threw?
    case Raw => rec.raw(col.columnid).Threw?
  }

  /** Does the retrieval made for this column return null on this record? */
  predicate ReturnsNull(rec: Record, col: Column, r: Retrieval) {
    match r
    case Skip => false
    case Typed(call) => rec.typed(col.columnid, call) == Got(Null)
    case Raw => rec.raw(col.columnid) == Got(None)
  }

  /** The integral column types and the retrieval that reads each at its
      own width and signedness; Currency is a signed 64-bit integer. */
  function IntegerCall(t: Coltyp): Option<Call> {
    match t
    case UnsignedByte => Some(AsByte)
    case Short => Some(AsInt16)
    case UnsignedShort => Some(AsUInt16)
    case Long => Some(AsInt32)
    case UnsignedLong => Some(AsUInt32)
    case LongLong => Some(AsInt64)
    case Currency => Some(AsInt64)
    case _ => None
  }

  function Names(cols: seq<Column>): (r: seq<string>)
    ensures |r| == |cols| && forall i :: 0 <= i < |cols| ==> r[i] == cols[i].name
  {
    seq(|cols|, i requires 0 <= i < |cols| => cols[i].name)
  }

  /** Column names are unique within a table (the engine's catalog keeps
      them so); the exporters key dictionaries by name and rely on it. */
  predicate DistinctNames(cols: seq<Column>) {
    forall i, j :: 0 <= i < j < |cols| ==> cols[i].name != cols[j].name
  }

  /** Every column's name is among the table's names. */
  lemma NameListed(cols: seq<Column>, c: Column)
    requires c in cols
    ensures c.name in Names(cols)
  {
    var i :| 0 <= i < |cols| && cols[i] == c;
    assert Names(cols)[i] == c.name;
  }

  /** With unique names a column of the table is known by its name. */
  lemma NameDetermines(cols: seq<Column>, a: Column, b: Column)
    requires DistinctNames(cols) && a in cols && b in cols && a.name == b.name
    ensures a == b
  {
  }

  predicate ValidDatabase(db: Database) {
    forall name :: name in db ==> DistinctNames(db[name].columns)
  }

  /** The first column of the given name, if any. */
  function FindColumn(cols: seq<Column>, name: string): (r: Option<nat>)
    ensures r.Some? ==> r.value < |cols| && cols[r.value].name == name
    ensures r.Some? ==> forall i :: 0 <= i < r.value ==> cols[i].name != name
    ensures r.None? ==> forall i :: 0 <= i < |cols| ==> cols[i].name != name
  {
    if cols == [] then None
    else if cols[0].name == name then Some(0)
    else match FindColumn(cols[1..], name)
      case None => None
      case Some(k) => Some(k + 1)
  }
}
