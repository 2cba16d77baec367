/** The data mapping of the Google Sheets integration: the rows `syncCompetitorsToSheet`
    writes, the records `readFromSheet` builds from a sheet, the `DataTransformer`
    conversions and `DataTransformer.compareData`. The Sheets API calls themselves are
    not modelled: a sheet is the matrix of values sent or received. */
module Sheets {
  import opened Wrappers
  import opened JsText
  import opened JsValue
  import opened Snapshot
  import opened Seqs
  import Changes
  import KeyOrder

  // ---------------------------------------------------------------------------
  // compareData

  /** One entry of `compareData`'s result; `timestamp` is the ISO text of the moment
      of the call. */
  datatype SheetChange =
    | Added(companyId: Value, companyName: Value, timestamp: string)
    | Updated(companyId: Value, companyName: Value, field: string, oldValue: Value, newValue: Value,
              timestamp: string)

  /** The `updated` entries for the given keys of a matched record. */
  function Updates(oldItem: Record, newItem: Record, keys: seq<string>, now: string): (r: seq<SheetChange>)
    ensures |r| == |keys|
    ensures forall i :: 0 <= i < |r| ==>
              && r[i].Updated? && r[i].field == keys[i]
              && r[i].oldValue == oldItem.Get(keys[i]) && r[i].newValue == newItem.Get(keys[i])
  {
    seq(|keys|, i requires 0 <= i < |keys| =>
      Updated(IdOf(newItem), newItem.Get("name"), keys[i], oldItem.Get(keys[i]), newItem.Get(keys[i]), now))
  }

  /** The entries one record of the new data gives rise to. */
  function CompareItem(oldData: seq<Record>, newItem: Record, now: string): seq<SheetChange>
  {
    match FindById(oldData, IdOf(newItem))
    case None => [Added(IdOf(newItem), newItem.Get("name"), now)]
    case Some(oldItem) => Updates(oldItem, newItem, ChangedKeys(oldItem, newItem), now)
  }

  /** `DataTransformer.compareData(oldData, newData)`. */
  function CompareData(oldData: seq<Record>, newData: seq<Record>, now: string): seq<SheetChange>
  {
    if |newData| == 0 then []
    else CompareItem(oldData, newData[0], now) + CompareData(oldData, newData[1..], now)
  }

  /** A record whose id the old data lacks is reported once, as `added`. */
  lemma CompareItemAdded(oldData: seq<Record>, newItem: Record, now: string)
    requires forall i :: 0 <= i < |oldData| ==> !StrictEq(IdOf(oldData[i]), IdOf(newItem))
    ensures CompareItem(oldData, newItem, now) == [Added(IdOf(newItem), newItem.Get("name"), now)]
  {
  }

  /** A matched record gives one `updated` entry per key of the new record whose value
      is not `===` to the old record's, in the new record's key order, and nothing else. */
  lemma CompareItemUpdated(oldData: seq<Record>, newItem: Record, now: string, oldItem: Record)
    requires FindById(oldData, IdOf(newItem)) == Some(oldItem)
    ensures forall c :: c in CompareItem(oldData, newItem, now) ==> c.Updated? && c.companyId == IdOf(newItem)
    ensures forall k :: (exists c :: c in CompareItem(oldData, newItem, now) && c.field == k) <==>
              k in newItem.keys && Differs(oldItem, newItem, k)
    ensures IsSubsequence(Fields(CompareItem(oldData, newItem, now)), newItem.OwnKeys())
  {
    ChangedKeysSpec(oldItem, newItem);
    var keys := ChangedKeys(oldItem, newItem);
    UpdatesFields(oldItem, newItem, keys, now);
  }

  lemma UpdatesFields(oldItem: Record, newItem: Record, keys: seq<string>, now: string)
    ensures forall c :: c in Updates(oldItem, newItem, keys, now) ==> c.Updated? && c.companyId == IdOf(newItem)
    ensures forall k :: (exists c :: c in Updates(oldItem, newItem, keys, now) && c.field == k) <==> k in keys
    ensures Fields(Updates(oldItem, newItem, keys, now)) == keys
  {
    var r := Updates(oldItem, newItem, keys, now);
    assert Fields(r) == keys;
    forall k
      ensures (exists c :: c in r && c.field == k) <==> k in keys
    {
      if k in keys {
        var i :| 0 <= i < |keys| && keys[i] == k;
        assert r[i] in r && r[i].field == k;
      }
    }
  }

  /** The fields of a list of `updated` entries. */
  function Fields(cs: seq<SheetChange>): (r: seq<string>)
    requires forall c :: c in cs ==> c.Updated?
    ensures |r| == |cs|
  {
    seq(|cs|, i requires 0 <= i < |cs| => cs[i].field)
  }

  /** What `compareData` reports for a change `detectChanges` finds: the same record and
      field, without the record copy, the impact and the clock reading. */
  function Shape(c: Changes.Change, now: string): SheetChange
  {
    match c
    case NewCompetitor(id, name, _, _) => Added(id, name, now)
    case FieldChange(id, name, field, oldValue, newValue, _, _) => Updated(id, name, field, oldValue, newValue, now)
  }

  function Shapes(cs: seq<Changes.Change>, now: string): (r: seq<SheetChange>)
    ensures |r| == |cs|
  {
    seq(|cs|, i requires 0 <= i < |cs| => Shape(cs[i], now))
  }

  lemma ShapesAppend(a: seq<Changes.Change>, b: seq<Changes.Change>, now: string)
    ensures Shapes(a + b, now) == Shapes(a, now) + Shapes(b, now)
  {
  }

  lemma CompareItemMirrors(oldData: seq<Record>, newItem: Record, now: string, stamp: int)
    ensures CompareItem(oldData, newItem, now) == Shapes(Changes.ItemChanges(oldData, newItem, stamp), now)
  {
    match FindById(oldData, IdOf(newItem))
    case None =>
    case Some(oldItem) =>
      var keys := ChangedKeys(oldItem, newItem);
      var cs := Changes.FieldChanges(oldItem, newItem, keys, stamp);
      assert Changes.ItemChanges(oldData, newItem, stamp) == cs;
      assert CompareItem(oldData, newItem, now) == Updates(oldItem, newItem, keys, now);
      assert forall i :: 0 <= i < |cs| ==> Shape(cs[i], now) == Updates(oldItem, newItem, keys, now)[i];
  }

  /** `compareData` and `ChangeMonitor.detectChanges` report the same changes in the same
      order: entry for entry, an `added` entry is a `NEW_COMPETITOR` change and an
      `updated` entry a field change of the same record, field and values. */
  lemma {:induction false} CompareDataMirrorsDetectChanges(oldData: seq<Record>, newData: seq<Record>,
                                                           now: string, stamp: int)
    ensures CompareData(oldData, newData, now) == Shapes(Changes.DetectChanges(oldData, newData, stamp), now)
    decreases |newData|
  {
    if |newData| > 0 {
      CompareItemMirrors(oldData, newData[0], now, stamp);
      Changes.DetectChangesCons(oldData, newData, stamp);
      CompareDataMirrorsDetectChanges(oldData, newData[1..], now, stamp);
      ShapesAppend(Changes.ItemChanges(oldData, newData[0], stamp),
                   Changes.DetectChanges(oldData, newData[1..], stamp), now);
    }
  }

  /** Comparing data with unique ids against itself reports nothing. */
  lemma CompareWithItself(data: seq<Record>, now: string)
    requires UniqueIds(data)
    ensures CompareData(data, data, now) == []
  {
    CompareDataMirrorsDetectChanges(data, data, now, 0);
    Changes.NoChangesAgainstItself(data, 0);
  }

  // ---------------------------------------------------------------------------
  // DataTransformer.toSheetsFormat and fromSheetsFormat

  /** The keys of a `toSheetsFormat` record, in order. */
  function SheetsFormatKey(j: int): string
  {
    match j
    case 0 => "id"
    case 1 => "companyName"
    case 2 => "website"
    case 3 => "revenue"
    case 4 => "employees"
    case 5 => "marketShare"
    case 6 => "status"
    case _ => "lastUpdate"
  }

  function SheetsFormatKeys(): (r: seq<string>)
    ensures |r| == 8
    ensures forall j :: 0 <= j < 8 ==> r[j] == SheetsFormatKey(j)
  {
    seq(8, j requires 0 <= j < 8 => SheetsFormatKey(j))
  }

  lemma SheetsFormatKeysDistinct()
    ensures forall a, b :: 0 <= a < b < 8 ==> SheetsFormatKey(a) != SheetsFormatKey(b)
  {
  }

  /** The value `toSheetsFormat` gives one competitor under its `j`-th key: `companyName`
      falls back to `name` and `website` to `url`; the rest are copied. */
  function ToSheetsValue(comp: Record, j: int): Value
  {
    match j
    case 1 => Or(comp.Get("companyName"), comp.Get("name"))
    case 2 => Or(comp.Get("website"), comp.Get("url"))
    case _ => comp.Get(SheetsFormatKey(j))
  }

  /** The values `toSheetsFormat` gives one competitor, in the order of its keys. */
  function ToSheetsValues(comp: Record): (r: seq<Value>)
    ensures |r| == 8
    ensures forall j :: 0 <= j < 8 ==> r[j] == ToSheetsValue(comp, j)
  {
    seq(8, j requires 0 <= j < 8 => ToSheetsValue(comp, j))
  }

  /** One competitor in `toSheetsFormat`'s shape. */
  function ToSheetsRecord(comp: Record): Record
  {
    FromEntries(Zip(SheetsFormatKeys(), ToSheetsValues(comp)))
  }

  /** `DataTransformer.toSheetsFormat(competitors)`. */
  function ToSheetsFormat(competitors: seq<Record>): (r: seq<Record>)
    ensures |r| == |competitors|
  {
    seq(|competitors|, i requires 0 <= i < |competitors| => ToSheetsRecord(competitors[i]))
  }

  /** A competitor becomes a record of exactly the eight keys, in order; `companyName`
      falls back to `name` and `website` to `url` when falsy, and the other six are
      copied as they are, `undefined` included. */
  lemma ToSheetsRecordSpec(comp: Record)
    ensures ToSheetsRecord(comp).keys == SheetsFormatKeys()
    ensures ToSheetsRecord(comp).Get("companyName") == Or(comp.Get("companyName"), comp.Get("name"))
    ensures ToSheetsRecord(comp).Get("website") == Or(comp.Get("website"), comp.Get("url"))
    ensures forall j :: 0 <= j < 8 && j != 1 && j != 2 ==>
              ToSheetsRecord(comp).Get(SheetsFormatKey(j)) == comp.Get(SheetsFormatKey(j))
  {
    SheetsFormatKeysDistinct();
    LiteralRecord(SheetsFormatKeys(), ToSheetsValues(comp));
    assert SheetsFormatKeys()[1] == "companyName" && SheetsFormatKeys()[2] == "website";
  }

  /** `parseInt(v) || 0`: the integer `v`'s text starts with, and `0` both when there is
      none (`NaN`) and when it is zero. */
  function SheetId(v: Value): (r: Value)
    ensures r.Num?
  {
    match ParseInt(ToStr(v))
    case Some(n) => Num(n)
    case None => Num(0)
  }

  /** The keys of a `fromSheetsFormat` record, in order. */
  function AppFormatKey(j: int): string
  {
    match j
    case 0 => "id"
    case 1 => "name"
    case 2 => "website"
    case 3 => "revenue"
    case 4 => "employees"
    case 5 => "marketShare"
    case _ => "status"
  }

  function AppFormatKeys(): (r: seq<string>)
    ensures |r| == 7
    ensures forall j :: 0 <= j < 7 ==> r[j] == AppFormatKey(j)
  {
    seq(7, j requires 0 <= j < 7 => AppFormatKey(j))
  }

  lemma AppFormatKeysDistinct()
    ensures forall a, b :: 0 <= a < b < 7 ==> AppFormatKey(a) != AppFormatKey(b)
  {
  }

  /** The value `fromSheetsFormat` gives one row under its `j`-th key. */
  function FromSheetsValue(row: Record, j: int): Value
  {
    match j
    case 0 => SheetId(row.Get("ID"))
    case 1 => Or(row.Get("Название компании"), Str(""))
    case 2 => Or(row.Get("Сайт"), Str(""))
    case 3 => Or(row.Get("Выручка"), Str(""))
    case 4 => Or(row.Get("Сотрудники"), Str(""))
    case 5 => Or(row.Get("Доля рынка"), Str(""))
    case _ => Or(row.Get("Статус"), Str("Unknown"))
  }

  /** The values `fromSheetsFormat` gives one row, in the order of its keys. */
  function FromSheetsValues(row: Record): (r: seq<Value>)
    ensures |r| == 7
    ensures forall j :: 0 <= j < 7 ==> r[j] == FromSheetsValue(row, j)
  {
    seq(7, j requires 0 <= j < 7 => FromSheetsValue(row, j))
  }

  /** One row of a sheet, keyed by its header texts, in the application's shape. */
  function FromSheetsRecord(row: Record): Record
  {
    FromEntries(Zip(AppFormatKeys(), FromSheetsValues(row)))
  }

  /** `DataTransformer.fromSheetsFormat(sheetsData)`. */
  function FromSheetsFormat(rows: seq<Record>): (r: seq<Record>)
    ensures |r| == |rows|
  {
    seq(|rows|, i requires 0 <= i < |rows| => FromSheetsRecord(rows[i]))
  }

  lemma FromSheetsRecordKeys(row: Record)
    ensures FromSheetsRecord(row).keys == AppFormatKeys()
  {
    AppFormatKeysDistinct();
    LiteralRecord(AppFormatKeys(), FromSheetsValues(row));
  }

  lemma FromSheetsRecordGet(row: Record, j: int)
    requires 0 <= j < 7
    ensures FromSheetsRecord(row).Get(AppFormatKey(j)) == FromSheetsValue(row, j)
  {
    AppFormatKeysDistinct();
    LiteralRecord(AppFormatKeys(), FromSheetsValues(row));
  }

  /** A row becomes a record of exactly seven keys: a numeric `id` that is the integer
      the `ID` cell starts with or `0`, the text columns with `''` for a falsy cell, and
      `status` with `'Unknown'` for a falsy cell. */
  lemma FromSheetsRecordSpec(row: Record)
    ensures FromSheetsRecord(row).keys == AppFormatKeys()
    ensures FromSheetsRecord(row).Get("id") == Num(ParseInt(ToStr(row.Get("ID"))).GetOr(0))
    ensures FromSheetsRecord(row).Get("name") == Or(row.Get("Название компании"), Str(""))
    ensures FromSheetsRecord(row).Get("website") == Or(row.Get("Сайт"), Str(""))
    ensures FromSheetsRecord(row).Get("revenue") == Or(row.Get("Выручка"), Str(""))
    ensures FromSheetsRecord(row).Get("employees") == Or(row.Get("Сотрудники"), Str(""))
    ensures FromSheetsRecord(row).Get("marketShare") == Or(row.Get("Доля рынка"), Str(""))
    ensures FromSheetsRecord(row).Get("status") == Or(row.Get("Статус"), Str("Unknown"))
  {
    FromSheetsRecordKeys(row);
    FromSheetsRecordGet(row, 0);
    FromSheetsRecordGet(row, 1);
    FromSheetsRecordGet(row, 2);
    FromSheetsRecordGet(row, 3);
    FromSheetsRecordGet(row, 4);
    FromSheetsRecordGet(row, 5);
    FromSheetsRecordGet(row, 6);
  }

  /** `fromSheetsFormat` keeps every row in its place; each record has the seven keys,
      a numeric id and a non-empty status, whatever the row holds. */
  lemma FromSheetsFormatSpec(rows: seq<Record>)
    ensures forall i :: 0 <= i < |rows| ==>
      && FromSheetsFormat(rows)[i].keys == AppFormatKeys()
      && FromSheetsFormat(rows)[i].Get("id").Num?
      && Truthy(FromSheetsFormat(rows)[i].Get("status"))
  {
    forall i | 0 <= i < |rows|
      ensures FromSheetsFormat(rows)[i].keys == AppFormatKeys()
      ensures FromSheetsFormat(rows)[i].Get("id").Num?
      ensures Truthy(FromSheetsFormat(rows)[i].Get("status"))
    {
      FromSheetsRecordSpec(rows[i]);
    }
  }

  // ---------------------------------------------------------------------------
  // readFromSheet

  /** `row[index] || ''`: a missing or falsy cell reads as the empty string. */
  function CellAt(row: seq<Value>, index: int): (r: Value)
    ensures Truthy(r) || r == Str("")
  {
    Or(if 0 <= index < |row| then row[index] else Undefined, Str(""))
  }

  /** The entries `headers.forEach((header, index) => item[header] = row[index] || '')`
      writes, in order. */
  function RowEntries(headers: seq<Value>, row: seq<Value>): (r: seq<(string, Value)>)
    ensures |r| == |headers|
    ensures forall j :: 0 <= j < |r| ==> r[j] == (ToStr(headers[j]), CellAt(row, j))
  {
    seq(|headers|, j requires 0 <= j < |headers| => (ToStr(headers[j]), CellAt(row, j)))
  }

  /** The record `readFromSheet` builds from one data row. */
  function RowRecord(headers: seq<Value>, row: seq<Value>): Record
  {
    FromEntries(RowEntries(headers, row))
  }

  /** What `readFromSheet` returns for the values of the range: nothing for a missing or
      empty range, otherwise one record per row after the header row. */
  function ReadFromSheet(values: Option<seq<seq<Value>>>): (r: seq<Record>)
    ensures values.None? || |values.value| == 0 ==> r == []
    ensures values.Some? && |values.value| > 0 ==> |r| == |values.value| - 1
  {
    if values.None? || |values.value| == 0 then []
    else
      var rows := values.value;
      seq(|rows| - 1, i requires 0 <= i < |rows| - 1 => RowRecord(rows[0], rows[i + 1]))
  }

  lemma ReadFromSheetRow(rows: seq<seq<Value>>, i: int)
    requires 0 <= i < |rows| - 1
    ensures ReadFromSheet(Some(rows))[i] == FromEntries(RowEntries(rows[0], rows[i + 1]))
  {
    var values := Some(rows);
    assert values.value == rows;
    assert ReadFromSheet(values) == seq(|rows| - 1, k requires 0 <= k < |rows| - 1 => RowRecord(rows[0], rows[k + 1]));
  }

  /** A record read from a sheet maps the text of a header to the cell in its column,
      `''` for a missing or falsy cell; of repeated headers the rightmost column wins. */
  lemma ReadFromSheetSpec(rows: seq<seq<Value>>, i: int, j: int)
    requires 0 <= i < |rows| - 1 && 0 <= j < |rows[0]|
    requires forall k :: j < k < |rows[0]| ==> ToStr(rows[0][k]) != ToStr(rows[0][j])
    ensures ReadFromSheet(Some(rows))[i].Get(ToStr(rows[0][j])) == CellAt(rows[i + 1], j)
  {
    var entries := RowEntries(rows[0], rows[i + 1]);
    ReadFromSheetRow(rows, i);
    assert entries[j] == (ToStr(rows[0][j]), CellAt(rows[i + 1], j));
    FromEntriesGet(entries, j);
  }

  /** With distinct header texts, a record read from a sheet was given exactly the
      headers as keys, in column order; `Object.keys` lists them in that order too unless
      a header is an array index such as `'2023'`, which then comes first. */
  lemma ReadFromSheetKeys(rows: seq<seq<Value>>, i: int)
    requires 0 <= i < |rows| - 1
    requires forall a, b :: 0 <= a < b < |rows[0]| ==> ToStr(rows[0][a]) != ToStr(rows[0][b])
    ensures ReadFromSheet(Some(rows))[i].keys == seq(|rows[0]|, j requires 0 <= j < |rows[0]| => ToStr(rows[0][j]))
    ensures ReadFromSheet(Some(rows))[i].OwnKeys()
         == KeyOrder.Enumerate(seq(|rows[0]|, j requires 0 <= j < |rows[0]| => ToStr(rows[0][j])), KeyOrder.KeyName)
    ensures (forall j :: 0 <= j < |rows[0]| ==> !KeyOrder.IsArrayIndex(ToStr(rows[0][j]))) ==>
      ReadFromSheet(Some(rows))[i].OwnKeys() == seq(|rows[0]|, j requires 0 <= j < |rows[0]| => ToStr(rows[0][j]))
  {
    var entries := RowEntries(rows[0], rows[i + 1]);
    var headers := seq(|rows[0]|, j requires 0 <= j < |rows[0]| => ToStr(rows[0][j]));
    ReadFromSheetRow(rows, i);
    FromEntriesKeys(entries);
    assert EntryKeys(entries) == headers;
    if forall j :: 0 <= j < |rows[0]| ==> !KeyOrder.IsArrayIndex(ToStr(rows[0][j])) {
      KeyOrder.EnumerateWithoutIndices(headers, KeyOrder.KeyName);
    }
  }

  // ---------------------------------------------------------------------------
  // syncCompetitorsToSheet

  /** The header row `syncCompetitorsToSheet` writes. */
  const SyncHeaders: seq<string> := [
    "ID", "Название компании", "Бренд", "Сайт", "Форма собственности",
    "Штаб-квартира", "Регионы", "Телефон", "Email",
    "Бизнес-модель", "Целевая аудитория", "Типы недвижимости",
    "Услуги", "Монетизация", "Выручка", "Сотрудники",
    "Доля рынка", "Трафик (мес)", "Рейтинг",
    "Статус", "Год основания", "Последнее обновление",
    "Сильные стороны", "Слабые стороны", "Возможности", "Угрозы"]

  const Unspecified: Value := Str("Не указано")

  /** `Array.isArray(v) ? v.join(', ') : otherwise`. */
  function ListOr(v: Value, otherwise: Value): Value
  {
    if v.Arr? then Str(JoinValues(v.items, ", ")) else otherwise
  }

  /** `v?.key`: `undefined` when `v` is `null` or `undefined`. */
  function OptionalProp(v: Value, key: string): Value
  {
    if IsNullish(v) then Undefined else Prop(v, key)
  }

  /** The cell of a competitor's sheet row in column `j`, as the header row names the
      columns. `dateText` is `new Date(v).toLocaleDateString('ru-RU')` and `today` the
      same for the moment of the call. */
  function SyncCell(comp: Record, dateText: Value -> string, today: string, j: int): Value
  {
    match j
    case 0 => comp.Get("id")
    case 1 => Or(comp.Get("companyName"), comp.Get("name"))
    case 2 => Or(comp.Get("brandName"), comp.Get("name"))
    case 3 => Or(comp.Get("website"), comp.Get("url"))
    case 4 => Or(comp.Get("legalForm"), Unspecified)
    case 5 => Or(comp.Get("headquarters"), comp.Get("geography"))
    case 6 => ListOr(comp.Get("regions"), comp.Get("geography"))
    case 7 => Or(comp.Get("phone"), Unspecified)
    case 8 => Or(comp.Get("email"), Unspecified)
    case 9 => Or(comp.Get("businessModel"), comp.Get("category"))
    case 10 => Or(comp.Get("targetAudience"), Unspecified)
    case 11 => ListOr(comp.Get("propertyTypes"), comp.Get("propertyType"))
    case 12 => ListOr(comp.Get("services"), Unspecified)
    case 13 => Or(comp.Get("monetization"), Unspecified)
    case 14 => Or(comp.Get("revenue"), Unspecified)
    case 15 => Or(comp.Get("employees"), Unspecified)
    case 16 => Or(comp.Get("marketShare"), Unspecified)
    case 17 => Or(Or(OptionalProp(comp.Get("traffic"), "monthly"), comp.Get("traffic")), Unspecified)
    case 18 => Or(Or(OptionalProp(comp.Get("rankings"), "appStore"), comp.Get("rating")), Unspecified)
    case 19 => Or(comp.Get("status"), Str("Активный"))
    case 20 => Or(comp.Get("foundedYear"), Unspecified)
    case 21 => Str(if Truthy(comp.Get("lastUpdate")) then dateText(comp.Get("lastUpdate")) else today)
    case 22 => ListOr(comp.Get("strengths"), Unspecified)
    case 23 => ListOr(comp.Get("weaknesses"), Unspecified)
    case 24 => ListOr(comp.Get("opportunities"), Unspecified)
    case _ => ListOr(comp.Get("threats"), Unspecified)
  }

  /** The sheet row of one competitor: one cell per header. */
  function SyncRow(comp: Record, dateText: Value -> string, today: string): (r: seq<Value>)
    ensures |r| == |SyncHeaders|
  {
    seq(|SyncHeaders|, j requires 0 <= j < |SyncHeaders| => SyncCell(comp, dateText, today, j))
  }

  function HeaderRow(): (r: seq<Value>)
    ensures |r| == |SyncHeaders|
    ensures forall j :: 0 <= j < |r| ==> r[j] == Str(SyncHeaders[j])
  {
    seq(|SyncHeaders|, j requires 0 <= j < |SyncHeaders| => Str(SyncHeaders[j]))
  }

  /** The `values` `syncCompetitorsToSheet` sends: the header row, then one row per
      competitor. */
  function SyncValues(competitors: seq<Record>, dateText: Value -> string, today: string): (r: seq<seq<Value>>)
    ensures |r| == |competitors| + 1
  {
    [HeaderRow()] + seq(|competitors|, i requires 0 <= i < |competitors| => SyncRow(competitors[i], dateText, today))
  }

  /** The written sheet is rectangular: every row, the header row included, has one cell
      per header, and a competitor's row is its own. */
  lemma SyncValuesShape(competitors: seq<Record>, dateText: Value -> string, today: string)
    ensures var v := SyncValues(competitors, dateText, today);
      && v[0] == HeaderRow()
      && (forall i :: 0 <= i < |v| ==> |v[i]| == |SyncHeaders| == 26)
      && forall i :: 0 <= i < |competitors| ==> v[i + 1] == SyncRow(competitors[i], dateText, today)
  {
  }

  lemma SyncHeadersDistinct()
    ensures forall a, b :: 0 <= a < b < |SyncHeaders| ==> SyncHeaders[a] != SyncHeaders[b]
  {
  }

  lemma SyncHeadersNotIndices()
    ensures forall a :: 0 <= a < |SyncHeaders| ==> !KeyOrder.IsArrayIndex(SyncHeaders[a])
  {
    forall a | 0 <= a < |SyncHeaders|
      ensures !KeyOrder.IsArrayIndex(SyncHeaders[a])
    {
      assert !IsDigit(SyncHeaders[a][0]);
    }
  }

  /** The rows `readFromSheet` gets back, in its default range `Competitors!A1:Z1000`,
      from a sheet holding the written values: the header row and at most 999
      competitors, taken to come back as they were written. */
  const ReadWindowRows := 1000

  /** Reading back a written sheet gives, for each competitor, a record keyed by exactly
      the 26 headers in column order, which `Object.keys` also lists in that order. */
  lemma SyncThenReadKeys(competitors: seq<Record>, dateText: Value -> string, today: string, i: int)
    requires 0 <= i < |competitors| < ReadWindowRows
    ensures var back := ReadFromSheet(Some(SyncValues(competitors, dateText, today)));
      && |back| == |competitors|
      && back[i].keys == SyncHeaders
      && back[i].OwnKeys() == SyncHeaders
  {
    var values := SyncValues(competitors, dateText, today);
    assert values[0] == HeaderRow();
    ReadUnderHeaderRow(values, i);
  }

  /** Rows under the written header row read back keyed by the 26 headers. */
  lemma ReadUnderHeaderRow(values: seq<seq<Value>>, i: int)
    requires 0 <= i < |values| - 1 && values[0] == HeaderRow()
    ensures ReadFromSheet(Some(values))[i].keys == SyncHeaders
    ensures ReadFromSheet(Some(values))[i].OwnKeys() == SyncHeaders
  {
    HeaderRowTexts();
    ReadFromSheetKeys(values, i);
  }

  /** Under the written header row, a row reads back with the cell of each column under
      that column's header. */
  lemma ReadUnderHeaderRowCell(values: seq<seq<Value>>, i: int, j: int)
    requires 0 <= i < |values| - 1 && values[0] == HeaderRow() && 0 <= j < |SyncHeaders|
    ensures ReadFromSheet(Some(values))[i].Get(SyncHeaders[j]) == CellAt(values[i + 1], j)
  {
    HeaderRowTexts();
    ReadFromSheetSpec(values, i, j);
  }

  /** The header row holds the 26 header texts, which are distinct and none of which is
      an array index. */
  lemma HeaderRowTexts()
    ensures seq(|HeaderRow()|, a requires 0 <= a < |HeaderRow()| => ToStr(HeaderRow()[a])) == SyncHeaders
    ensures forall a, b :: 0 <= a < b < |HeaderRow()| ==> ToStr(HeaderRow()[a]) != ToStr(HeaderRow()[b])
    ensures forall a :: 0 <= a < |HeaderRow()| ==> !KeyOrder.IsArrayIndex(ToStr(HeaderRow()[a]))
  {
    SyncHeadersDistinct();
    SyncHeadersNotIndices();
    assert forall a :: 0 <= a < |HeaderRow()| ==> ToStr(HeaderRow()[a]) == SyncHeaders[a];
  }

  /** In a record read back from a written sheet the cell under each header is what was
      written there, `''` in place of a falsy value. */
  lemma {:induction false} SyncThenRead(competitors: seq<Record>, dateText: Value -> string, today: string,
                                        i: int, j: int)
    requires 0 <= i < |competitors| < ReadWindowRows && 0 <= j < |SyncHeaders|
    ensures var back := ReadFromSheet(Some(SyncValues(competitors, dateText, today)));
      && |back| == |competitors|
      && back[i].Get(SyncHeaders[j]) == CellAt(SyncRow(competitors[i], dateText, today), j)
  {
    var values := SyncValues(competitors, dateText, today);
    assert values[0] == HeaderRow();
    assert values[i + 1] == SyncRow(competitors[i], dateText, today);
    ReadUnderHeaderRowCell(values, i, j);
  }

  /** What `fromSheetsFormat` makes of a record read back from a competitor's row,
      given the cells that row holds under the five headers it reads. */
  lemma {:induction false} RowRoundTrip(comp: Record, back: Record)
    requires back.Get("ID") == Or(comp.Get("id"), Str(""))
    requires back.Get("Название компании") == Or(Or(comp.Get("companyName"), comp.Get("name")), Str(""))
    requires back.Get("Сайт") == Or(Or(comp.Get("website"), comp.Get("url")), Str(""))
    requires back.Get("Выручка") == Or(Or(comp.Get("revenue"), Unspecified), Str(""))
    requires back.Get("Статус") == Or(Or(comp.Get("status"), Str("Активный")), Str(""))
    ensures comp.Get("id").Num? ==> FromSheetsRecord(back).Get("id") == comp.Get("id")
    ensures FromSheetsRecord(back).Get("name") == Or(Or(comp.Get("companyName"), comp.Get("name")), Str(""))
    ensures FromSheetsRecord(back).Get("website") == Or(Or(comp.Get("website"), comp.Get("url")), Str(""))
    ensures FromSheetsRecord(back).Get("revenue") == Or(comp.Get("revenue"), Unspecified)
    ensures FromSheetsRecord(back).Get("status") == Or(comp.Get("status"), Str("Активный"))
  {
    FromSheetsRecordSpec(back);
    if comp.Get("id").Num? {
      var n := comp.Get("id").n;
      ParseIntOfIntToString(n);
      if n == 0 {
        assert back.Get("ID") == Str("");
        assert ParseInt("") == None;
      }
    }
  }

  /** The cells of a competitor's row under the five headers `fromSheetsFormat` reads. */
  lemma SyncRowCells(comp: Record, dateText: Value -> string, today: string)
    ensures |SyncRow(comp, dateText, today)| == |SyncHeaders|
    ensures SyncRow(comp, dateText, today)[0] == comp.Get("id")
    ensures SyncRow(comp, dateText, today)[1] == Or(comp.Get("companyName"), comp.Get("name"))
    ensures SyncRow(comp, dateText, today)[3] == Or(comp.Get("website"), comp.Get("url"))
    ensures SyncRow(comp, dateText, today)[14] == Or(comp.Get("revenue"), Unspecified)
    ensures SyncRow(comp, dateText, today)[19] == Or(comp.Get("status"), Str("Активный"))
  {
  }

  lemma SyncHeaderNames()
    ensures SyncHeaders[0] == "ID" && SyncHeaders[1] == "Название компании" && SyncHeaders[3] == "Сайт"
    ensures SyncHeaders[14] == "Выручка" && SyncHeaders[19] == "Статус"
  {
  }

  /** A competitor written to a sheet, read back and converted by `fromSheetsFormat`
      keeps a numeric id, its company name (or name), website (or url) and status, with
      `'Активный'` in place of a missing status; a missing revenue comes back as
      `'Не указано'`, not as `''`. */
  lemma SheetRoundTrip(competitors: seq<Record>, dateText: Value -> string, today: string, i: int)
    requires 0 <= i < |competitors| < ReadWindowRows
    ensures |FromSheetsFormat(ReadFromSheet(Some(SyncValues(competitors, dateText, today))))| == |competitors|
    ensures competitors[i].Get("id").Num? ==>
      FromSheetsFormat(ReadFromSheet(Some(SyncValues(competitors, dateText, today))))[i].Get("id")
        == competitors[i].Get("id")
    ensures FromSheetsFormat(ReadFromSheet(Some(SyncValues(competitors, dateText, today))))[i].Get("name")
      == Or(Or(competitors[i].Get("companyName"), competitors[i].Get("name")), Str(""))
    ensures FromSheetsFormat(ReadFromSheet(Some(SyncValues(competitors, dateText, today))))[i].Get("website")
      == Or(Or(competitors[i].Get("website"), competitors[i].Get("url")), Str(""))
    ensures FromSheetsFormat(ReadFromSheet(Some(SyncValues(competitors, dateText, today))))[i].Get("revenue")
      == Or(competitors[i].Get("revenue"), Unspecified)
    ensures FromSheetsFormat(ReadFromSheet(Some(SyncValues(competitors, dateText, today))))[i].Get("status")
      == Or(competitors[i].Get("status"), Str("Активный"))
  {
    var comp := competitors[i];
    var back := ReadFromSheet(Some(SyncValues(competitors, dateText, today)));
    var row := SyncRow(comp, dateText, today);
    SyncRowCells(comp, dateText, today);
    SyncHeaderNames();
    SyncThenRead(competitors, dateText, today, i, 0);
    SyncThenRead(competitors, dateText, today, i, 1);
    SyncThenRead(competitors, dateText, today, i, 3);
    SyncThenRead(competitors, dateText, today, i, 14);
    SyncThenRead(competitors, dateText, today, i, 19);
    RowRoundTrip(comp, back[i]);
    assert FromSheetsFormat(back)[i] == FromSheetsRecord(back[i]);
  }
}
