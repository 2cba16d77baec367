/** `ExportManager` (lib/exportManager.js): serialising competitor records to CSV and
    to the row matrix of a spreadsheet, dispatching on the export format, and the
    status and region histograms. `JSON.stringify` is a parameter of the model. */
module ExportManager {
  import opened Wrappers
  import opened JsText
  import opened JsValue
  import opened Tally
  import Csv

  /** A column: the record key it shows, its header label and, for the default
      columns, the key to fall back on. */
  datatype FieldSpec = FieldSpec(key: string, header: string, fallback: Option<string>)

  /** `getDefaultFields()`: thirteen columns, four of them with a fallback key. */
  function DefaultFields(): (r: seq<FieldSpec>)
    ensures |r| == 13
  {
    [ FieldSpec("id", "ID", None),
      FieldSpec("companyName", "Название компании", Some("name")),
      FieldSpec("brandName", "Бренд", None),
      FieldSpec("website", "Сайт", Some("url")),
      FieldSpec("legalForm", "Форма собственности", None),
      FieldSpec("headquarters", "Штаб-квартира", Some("geography")),
      FieldSpec("businessModel", "Бизнес-модель", Some("category")),
      FieldSpec("revenue", "Выручка", None),
      FieldSpec("employees", "Сотрудники", None),
      FieldSpec("marketShare", "Доля рынка", None),
      FieldSpec("status", "Статус", None),
      FieldSpec("foundedYear", "Год основания", None),
      FieldSpec("description", "Описание", None) ]
  }

  /** `getFieldValue(object, key, fallback = null)`: the fallback key is read only when
      the value is `null` or `undefined` and the fallback is a non-empty key. */
  function GetFieldValue(obj: Record, key: string, fallback: Option<string>): Value
  {
    var v := obj.Get(key);
    if IsNullish(v) && fallback.Some? && fallback.value != "" then obj.Get(fallback.value) else v
  }

  /** The fallback is consulted exactly when the value is missing; without a fallback
      the lookup is the plain property read. */
  lemma FieldValueFallback(obj: Record, key: string, fallback: Option<string>)
    ensures !IsNullish(obj.Get(key)) ==> GetFieldValue(obj, key, fallback) == obj.Get(key)
    ensures fallback.None? ==> GetFieldValue(obj, key, fallback) == obj.Get(key)
    ensures (IsNullish(obj.Get(key)) && fallback.Some? && fallback.value != "")
              ==> GetFieldValue(obj, key, fallback) == obj.Get(fallback.value)
  {
  }

  // ---------------------------------------------------------------------------
  // CSV

  datatype Options = Options(fields: Option<seq<FieldSpec>>, delimiter: Value, includeHeaders: Value, spreadsheetId: Value)

  /** `options = {}`. */
  const NoOptions: Options := Options(None, Undefined, Undefined, Undefined)

  /** The text of a CSV cell before escaping: an array is joined with `'; '`, an object
      is its JSON text, `null` and `undefined` are empty, anything else is `String`. */
  function CellText(v: Value, json: Value -> string): string
  {
    match v
    case Arr(_, items) => JoinValues(items, "; ")
    case Obj(_, _) => json(v)
    case Undefined => ""
    case Null => ""
    case _ => ToStr(v)
  }

  /** The cell texts of one record. No fallback is passed, so none is applied. */
  function DataCells(c: Record, fields: seq<FieldSpec>, json: Value -> string): (r: seq<string>)
    ensures |r| == |fields|
    ensures forall i :: 0 <= i < |fields| ==> r[i] == CellText(c.Get(fields[i].key), json)
  {
    seq(|fields|, i requires 0 <= i < |fields| => CellText(GetFieldValue(c, fields[i].key, None), json))
  }

  /** A header cell: the label in quotes, not escaped. */
  function HeaderCells(fields: seq<FieldSpec>): (r: seq<string>)
    ensures |r| == |fields|
  {
    seq(|fields|, i requires 0 <= i < |fields| => "\"" + fields[i].header + "\"")
  }

  function Columns(options: Options): seq<FieldSpec>
  {
    options.fields.GetOr(DefaultFields())
  }

  /** `options.delimiter || ','`, as the string `join` uses. */
  function Separator(options: Options): string
  {
    ToStr(Or(options.delimiter, Str(",")))
  }

  /** `options.includeHeaders !== false`. */
  predicate WithHeaders(options: Options)
  {
    options.includeHeaders != Bool(false)
  }

  /** The lines of the CSV text, without their line feeds. */
  function CsvLines(competitors: seq<Record>, options: Options, json: Value -> string): (r: seq<string>)
  {
    var fields := Columns(options);
    var sep := Separator(options);
    (if WithHeaders(options) then [Join(HeaderCells(fields), sep)] else [])
    + seq(|competitors|, i requires 0 <= i < |competitors| => Join(Csv.QuotedCells(DataCells(competitors[i], fields, json)), sep))
  }

  /** Every line followed by a line feed. */
  function Terminated(lines: seq<string>): string
  {
    if |lines| == 0 then "" else lines[0] + "\n" + Terminated(lines[1..])
  }

  /** `exportToCSV(competitors, options).data`. */
  function ExportToCsv(competitors: seq<Record>, options: Options, json: Value -> string): string
  {
    Terminated(CsvLines(competitors, options, json))
  }

  /** One header line unless `includeHeaders` is `false`, then one line per record in
      order; each data line reads back, under section 2 of RFC 4180, as exactly the
      cell texts of its record, one per column, whatever quotes they contain. */
  lemma CsvLinesSpec(competitors: seq<Record>, options: Options, json: Value -> string, d: char)
    requires Separator(options) == [d] && d != '"'
    ensures var lines := CsvLines(competitors, options, json);
      var h := if WithHeaders(options) then 1 else 0;
      && |lines| == |competitors| + h
      && forall i :: 0 <= i < |competitors| ==>
           Csv.ParseRecord(lines[h + i], d) == Some(DataCells(competitors[i], Columns(options), json))
  {
    forall i | 0 <= i < |competitors|
      ensures Csv.ParseRecord(CsvLines(competitors, options, json)[(if WithHeaders(options) then 1 else 0) + i], d)
              == Some(DataCells(competitors[i], Columns(options), json))
    {
      CsvLineReadsBack(competitors, options, json, d, i);
    }
  }

  lemma CsvLineReadsBack(competitors: seq<Record>, options: Options, json: Value -> string, d: char, i: int)
    requires Separator(options) == [d] && d != '"' && 0 <= i < |competitors|
    ensures var h := if WithHeaders(options) then 1 else 0;
      Csv.ParseRecord(CsvLines(competitors, options, json)[h + i], d) == Some(DataCells(competitors[i], Columns(options), json))
  {
    var cells := DataCells(competitors[i], Columns(options), json);
    CsvLineAt(competitors, options, json, i);
    Csv.ParseQuotedRecord(cells, d);
  }

  lemma CsvLineAt(competitors: seq<Record>, options: Options, json: Value -> string, i: int)
    requires 0 <= i < |competitors|
    ensures CsvLines(competitors, options, json)[(if WithHeaders(options) then 1 else 0) + i]
         == Join(Csv.QuotedCells(DataCells(competitors[i], Columns(options), json)), Separator(options))
  {
    if WithHeaders(options) {
    } else {
    }
  }

  /** The header labels are quoted without escaping: labels without quotes, such as the
      default ones, read back unchanged. */
  lemma HeaderReadsBack(fields: seq<FieldSpec>, d: char)
    requires d != '"'
    requires forall i :: 0 <= i < |fields| ==> '"' !in fields[i].header
    ensures Csv.ParseRecord(Join(HeaderCells(fields), [d]), d)
              == Some(seq(|fields|, i requires 0 <= i < |fields| => fields[i].header))
  {
    var labels := seq(|fields|, i requires 0 <= i < |fields| => fields[i].header);
    assert HeaderCells(fields) == Csv.QuotedCells(labels);
    Csv.ParseQuotedRecord(labels, d);
  }

  /** The text is the lines, each ended by a line feed: the last line is terminated. */
  lemma {:induction false} TerminatedLines(lines: seq<string>)
    ensures |Terminated(lines)| == |lines| + TotalLength(lines)
    ensures |lines| > 0 ==> Terminated(lines)[|Terminated(lines)| - 1] == '\n'
    decreases |lines|
  {
    if |lines| > 0 {
      TerminatedLines(lines[1..]);
    }
  }

  /** Total length of the lines. */
  function TotalLength(lines: seq<string>): nat
  {
    if |lines| == 0 then 0 else |lines[0]| + TotalLength(lines[1..])
  }

  /** The default columns carry fallbacks, but the CSV export does not pass them: a
      column whose key is missing from a record is empty in its CSV line, although
      `getFieldValue` with the column's fallback would read the fallback key (a record
      with a `name` and no `companyName` gets an empty second column). */
  lemma CsvIgnoresFallback(c: Record, json: Value -> string)
    ensures forall j :: 0 <= j < |DefaultFields()| && IsNullish(c.Get(DefaultFields()[j].key)) ==>
      DataCells(c, DefaultFields(), json)[j] == ""
    ensures forall j :: 0 <= j < |DefaultFields()| && IsNullish(c.Get(DefaultFields()[j].key))
                        && DefaultFields()[j].fallback.Some? ==>
      GetFieldValue(c, DefaultFields()[j].key, DefaultFields()[j].fallback) == c.Get(DefaultFields()[j].fallback.value)
    ensures exists j :: 0 <= j < |DefaultFields()| && DefaultFields()[j].fallback.Some?
  {
    var fields := DefaultFields();
    assert fields[1].fallback == Some("name");
  }

  // ---------------------------------------------------------------------------
  // Spreadsheet rows

  /** A spreadsheet cell: arrays joined with `'; '`, objects as JSON, anything else
      `value || ''`. */
  function SheetCell(v: Value, json: Value -> string): (r: Value)
    ensures Truthy(r) || r == Str("")
  {
    match v
    case Arr(_, items) => Str(JoinValues(items, "; "))
    case Obj(_, _) => Str(json(v))
    case _ => Or(v, Str(""))
  }

  /** `prepareGoogleSheetsData(competitors)`: the header row of the default labels, then
      one row per record. */
  function PrepareSheetsData(competitors: seq<Record>, json: Value -> string): (r: seq<seq<Value>>)
    ensures |r| == |competitors| + 1
  {
    var fields := DefaultFields();
    [seq(|fields|, j requires 0 <= j < |fields| => Str(fields[j].header))]
    + seq(|competitors|, i requires 0 <= i < |competitors| =>
        seq(|fields|, j requires 0 <= j < |fields| => SheetCell(GetFieldValue(competitors[i], fields[j].key, None), json)))
  }

  /** Every row is as wide as the default columns, the first row holds their labels,
      no cell is a falsy value other than `''`, and a cell that is neither array nor
      object is the record's own value when that is truthy. */
  lemma SheetsDataSpec(competitors: seq<Record>, json: Value -> string)
    ensures var rows := PrepareSheetsData(competitors, json);
      && (forall i :: 0 <= i < |rows| ==> |rows[i]| == |DefaultFields()| == 13)
      && (forall j :: 0 <= j < 13 ==> rows[0][j] == Str(DefaultFields()[j].header))
      && (forall i, j :: 1 <= i < |rows| && 0 <= j < 13 ==> Truthy(rows[i][j]) || rows[i][j] == Str(""))
      && (forall i, j :: 0 <= i < |competitors| && 0 <= j < 13 ==>
            var v := competitors[i].Get(DefaultFields()[j].key);
            !v.Arr? && !v.Obj? && Truthy(v) ==> rows[i + 1][j] == v)
  {
  }

  // ---------------------------------------------------------------------------
  // Dispatch

  const SupportedFormats: seq<string> := ["csv", "xlsx", "json", "pdf", "google-sheets"]

  /** What an export produced. The workbook, the JSON document and the PDF text are
      outside the model. */
  datatype Exported =
    | CsvExport(data: string)
    | ExcelExport
    | JsonExport
    | PdfExport
    | SheetsExport(spreadsheetId: Value, values: seq<seq<Value>>)

  /** `exportData(competitors, format, options)`: the lower-cased format picks the
      exporter; a format that is not a string has no `toLowerCase`. */
  function ExportData(competitors: seq<Record>, format: Value, options: Options, json: Value -> string): Result<Exported>
  {
    if !format.Str? then Thrown(TypeError)
    else
      match ToLower(format.s)
      case "csv" => Ok(CsvExport(ExportToCsv(competitors, options, json)))
      case "xlsx" => Ok(ExcelExport)
      case "json" => Ok(JsonExport)
      case "pdf" => Ok(PdfExport)
      case "google-sheets" => Ok(SheetsExport(Or(options.spreadsheetId, Str("new")), PrepareSheetsData(competitors, json)))
      case _ => Thrown(Error("Unsupported format: " + format.s))
  }

  /** A string format is accepted exactly when its lower-case form is one of the five
      supported ones, and the case of the letters does not matter; anything else throws
      `Unsupported format`. */
  lemma ExportDispatch(competitors: seq<Record>, format: string, options: Options, json: Value -> string)
    ensures ExportData(competitors, Str(format), options, json).Ok? <==> ToLower(format) in SupportedFormats
    ensures ToLower(format) !in SupportedFormats ==>
              ExportData(competitors, Str(format), options, json) == Thrown(Error("Unsupported format: " + format))
    ensures ExportData(competitors, Str(format), options, json) != Thrown(TypeError)
    ensures ToLower(format) in SupportedFormats ==>
              ExportData(competitors, Str(format), options, json) == ExportData(competitors, Str(ToLower(format)), options, json)
  {
    ToLowerIdempotent(format);
  }

  // ---------------------------------------------------------------------------
  // Statistics

  /** `comp.status || 'Неизвестен'` as a property key. */
  function StatusKeys(competitors: seq<Record>): (r: seq<string>)
    ensures |r| == |competitors|
    ensures forall i :: 0 <= i < |competitors| && !Truthy(competitors[i].Get("status")) ==> r[i] == "Неизвестен"
  {
    seq(|competitors|, i requires 0 <= i < |competitors| => ToStr(Or(competitors[i].Get("status"), Str("Неизвестен"))))
  }

  /** `getStatusStatistics(competitors)`. */
  function GetStatusStatistics(competitors: seq<Record>): Histogram
  {
    Tally.Tally(StatusKeys(competitors))
  }

  /** One count per record: the counts sum to the number of records, and a record
      without a status is counted under `Неизвестен`. */
  lemma StatusStatisticsSpec(competitors: seq<Record>)
    ensures Tally.Sum(GetStatusStatistics(competitors)) == |competitors|
    ensures forall k :: Count(GetStatusStatistics(competitors), k) == multiset(StatusKeys(competitors))[k]
    ensures Count(GetStatusStatistics(competitors), "Неизвестен")
            >= |set i | 0 <= i < |competitors| && !Truthy(competitors[i].Get("status"))|
  {
    var keys := StatusKeys(competitors);
    var missing := set i | 0 <= i < |competitors| && !Truthy(competitors[i].Get("status"));
    UnknownCounted(keys, missing);
  }

  lemma {:induction false} UnknownCounted(keys: seq<string>, idx: set<int>)
    requires forall i :: i in idx ==> 0 <= i < |keys| && keys[i] == "Неизвестен"
    ensures multiset(keys)["Неизвестен"] >= |idx|
    decreases |keys|
  {
    if |keys| > 0 {
      var last := |keys| - 1;
      var front := idx - {last};
      forall i | i in front
        ensures 0 <= i < |keys[..last]| && keys[..last][i] == "Неизвестен"
      {
      }
      UnknownCounted(keys[..last], front);
      assert keys == keys[..last] + [keys[last]];
      assert multiset(keys) == multiset(keys[..last]) + multiset{keys[last]};
      if last in idx {
        assert idx == front + {last};
        assert last !in front;
        assert |idx| == |front| + 1;
      } else {
        assert idx == front;
      }
    } else {
      assert forall i :: i in idx ==> 0 <= i < |keys|;
      assert idx == {};
    }
  }

  /** The regions of one record: its `regions` when truthy, as a list even when it is
      a single value, else its headquarters, geography or `Не указан`. */
  function RegionList(c: Record): seq<Value>
  {
    var regions := c.Get("regions");
    if Truthy(regions) then (if regions.Arr? then regions.items else [regions])
    else [Or(Or(c.Get("headquarters"), c.Get("geography")), Str("Не указан"))]
  }

  /** The truthy entries, as property keys. */
  function RegionKeysOf(regions: seq<Value>): (r: seq<string>)
    ensures |r| == TruthyCount(regions)
  {
    if |regions| == 0 then []
    else (if Truthy(regions[0]) then [ToStr(regions[0])] else []) + RegionKeysOf(regions[1..])
  }

  function TruthyCount(vs: seq<Value>): nat
  {
    if |vs| == 0 then 0 else (if Truthy(vs[0]) then 1 else 0) + TruthyCount(vs[1..])
  }

  function RegionKeys(competitors: seq<Record>): seq<string>
  {
    if |competitors| == 0 then []
    else RegionKeysOf(RegionList(competitors[0])) + RegionKeys(competitors[1..])
  }

  /** `getRegionStatistics(competitors)`. */
  function GetRegionStatistics(competitors: seq<Record>): Histogram
  {
    Tally.Tally(RegionKeys(competitors))
  }

  /** The number of region counts a list of records contributes. */
  function RegionTotal(competitors: seq<Record>): nat
  {
    if |competitors| == 0 then 0 else TruthyCount(RegionList(competitors[0])) + RegionTotal(competitors[1..])
  }

  lemma {:induction false} RegionKeysLength(competitors: seq<Record>)
    ensures |RegionKeys(competitors)| == RegionTotal(competitors)
    decreases |competitors|
  {
    if |competitors| > 0 {
      RegionKeysLength(competitors[1..]);
    }
  }

  /** Each record adds one count per truthy region entry: a record without regions,
      headquarters or geography adds exactly one, under `Не указан`, and a single
      non-array `regions` value is one entry. */
  lemma RegionStatisticsSpec(competitors: seq<Record>)
    ensures Tally.Sum(GetRegionStatistics(competitors)) == RegionTotal(competitors)
    ensures forall k :: Count(GetRegionStatistics(competitors), k) == multiset(RegionKeys(competitors))[k]
    ensures forall c: Record :: !Truthy(c.Get("regions")) && !Truthy(c.Get("headquarters")) && !Truthy(c.Get("geography"))
              ==> RegionKeysOf(RegionList(c)) == ["Не указан"]
    ensures forall c: Record :: Truthy(c.Get("regions")) && !c.Get("regions").Arr? ==> RegionList(c) == [c.Get("regions")]
  {
    RegionKeysLength(competitors);
  }
}
