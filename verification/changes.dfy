/** Change detection of the monitor (`ChangeMonitor.detectChanges` and
    `calculateImpact` in lib/monitoringSystem.js): two snapshots of competitor records
    are matched by `id`, every differing field becomes a change, classified by how much
    the field matters, and an impact is attached. */
module Changes {
  import opened Wrappers
  import opened JsText
  import opened JsValue
  import opened Snapshot
  import opened Seqs

  datatype Level = Critical | Warning | Info

  function LevelName(l: Level): string
  {
    match l
    case Critical => "CRITICAL"
    case Warning => "WARNING"
    case Info => "INFO"
  }

  const CriticalFields: seq<string> := ["revenue", "marketShare", "employees", "status"]
  const SignificantFields: seq<string> := ["pricing", "services", "features"]

  /** The severity of a change to `field`; a field in neither list is informational. */
  function Classify(field: string): Level
  {
    if field in CriticalFields then Critical
    else if field in SignificantFields then Warning
    else Info
  }

  /** What `calculateImpact` found. The revenue and market-share texts are percentages
      formatted from floating-point numbers; the model keeps the operands they come
      from instead of the text. */
  datatype Impact =
    | Recorded
    | Unknown
    | EmployeeDelta(delta: int)
    | RevenueChange(oldAmount: real, newAmount: real)
    | ShareChange(oldValue: Value, newValue: Value)

  /** The text of an impact that is not a floating-point percentage. */
  function ImpactText(i: Impact): Option<string>
  {
    match i
    case Recorded => Some("Изменение зафиксировано")
    case Unknown => Some("Неизвестно")
    case EmployeeDelta(d) => Some(EmployeesText(d))
    case _ => None
  }

  /** `${change > 0 ? '+' : ''}${change} сотр.` */
  function EmployeesText(d: int): string
  {
    (if d > 0 then "+" else "") + IntToString(d) + " сотр."
  }

  /** The employee impact text is the signed delta, with `+` exactly when it is
      positive, and reading its number back gives the delta. */
  lemma EmployeesTextReadsBack(d: int)
    ensures ParseInt(EmployeesText(d)) == Some(d)
    ensures EmployeesText(d)[0] == '+' <==> d > 0
  {
    ParseIntOfRendering(d, d > 0, " сотр.");
    var digits := IntToString(d);
    assert |digits| >= 1 && (digits[0] == '-' || IsDigit(digits[0]));
    assert EmployeesText(d) == (if d > 0 then "+" else "") + digits + " сотр.";
  }

  /** The monitor's `parseFinancialValue`: `null` for a falsy value or one without a run
      of digits, commas and dots, else `parseFloat` of the first run with its first comma
      read as a decimal point. `None` stands for `null` and for `NaN`. */
  function MonitorAmount(v: Value): (r: Option<real>)
    ensures !Truthy(v) ==> r.None?
    ensures r.Some? ==> r.value >= 0.0
  {
    if !Truthy(v) then None
    else
      match FirstNumericRun(ToStr(v))
      case None => None
      case Some(run) => DecimalPrefix(ReplaceFirst(run, ',', '.'))
  }

  /** `calculateImpact(field, oldValue, newValue)`. */
  function CalculateImpact(field: string, oldValue: Value, newValue: Value): Impact
  {
    if field == "revenue" then
      var o := MonitorAmount(oldValue);
      var n := MonitorAmount(newValue);
      if o.Some? && o.value != 0.0 && n.Some? && n.value != 0.0 then RevenueChange(o.value, n.value)
      else Unknown
    else if field == "marketShare" then
      if ParsesAsFloat(ToStr(oldValue)) && ParsesAsFloat(ToStr(newValue)) then ShareChange(oldValue, newValue)
      else Unknown
    else if field == "employees" then
      match (ParseInt(ToStr(oldValue)), ParseInt(ToStr(newValue)))
      case (Some(o), Some(n)) => EmployeeDelta(n - o)
      case _ => Unknown
    else Recorded
  }

  /** Every field other than the three the source knows how to weigh is recorded as
      such; the three give `Неизвестно` as soon as one value does not parse. */
  lemma ImpactCases(field: string, oldValue: Value, newValue: Value)
    ensures field !in {"revenue", "marketShare", "employees"} ==> CalculateImpact(field, oldValue, newValue) == Recorded
    ensures (field == "employees" && (ParseInt(ToStr(oldValue)).None? || ParseInt(ToStr(newValue)).None?))
              ==> CalculateImpact(field, oldValue, newValue) == Unknown
    ensures (field == "marketShare" && !(ParsesAsFloat(ToStr(oldValue)) && ParsesAsFloat(ToStr(newValue))))
              ==> CalculateImpact(field, oldValue, newValue) == Unknown
    ensures (field == "revenue" && (!Truthy(oldValue) || !Truthy(newValue)))
              ==> CalculateImpact(field, oldValue, newValue) == Unknown
    ensures CalculateImpact(field, oldValue, newValue) == Recorded <==> field !in {"revenue", "marketShare", "employees"}
  {
  }

  /** Employee counts held as numbers give the exact difference, and its text reads
      back as that difference. */
  lemma EmployeeImpact(oldCount: int, newCount: int)
    ensures CalculateImpact("employees", Num(oldCount), Num(newCount)) == EmployeeDelta(newCount - oldCount)
    ensures ParseInt(ImpactText(CalculateImpact("employees", Num(oldCount), Num(newCount))).value) == Some(newCount - oldCount)
  {
    NumericEmployees(oldCount, newCount);
    EmployeesTextReadsBack(newCount - oldCount);
  }

  lemma NumericEmployees(oldCount: int, newCount: int)
    ensures CalculateImpact("employees", Num(oldCount), Num(newCount)) == EmployeeDelta(newCount - oldCount)
  {
    ParseIntOfIntToString(oldCount);
    ParseIntOfIntToString(newCount);
    EmployeesBranch(Num(oldCount), Num(newCount));
  }

  lemma EmployeesBranch(oldValue: Value, newValue: Value)
    ensures CalculateImpact("employees", oldValue, newValue)
         == match (ParseInt(ToStr(oldValue)), ParseInt(ToStr(newValue)))
            case (Some(o), Some(n)) => EmployeeDelta(n - o)
            case _ => Unknown
  {
  }

  /** A detected change. `timestamp` is the detection time in milliseconds. */
  datatype Change =
    | NewCompetitor(competitorId: Value, competitorName: Value, data: Record, timestamp: int)
    | FieldChange(competitorId: Value, competitorName: Value, field: string,
                  oldValue: Value, newValue: Value, timestamp: int, impact: Impact)
  {
    function Severity(): Level
    {
      if NewCompetitor? then Info else Classify(field)
    }

    /** `change.type`. */
    function TypeName(): string
    {
      if NewCompetitor? then "NEW_COMPETITOR"
      else
        match Classify(field)
        case Critical => "CRITICAL_UPDATE"
        case Warning => "SIGNIFICANT_UPDATE"
        case Info => "FIELD_UPDATED"
    }

    /** `change.severity` as the string the source stores. */
    function SeverityName(): string
    {
      LevelName(Severity())
    }

    /** `change.field`: a new competitor has none. */
    function FieldValue(): Value
    {
      if NewCompetitor? then Undefined else Str(field)
    }
  }

  /** Severity and type go together, and each field list decides them. */
  lemma SeverityTable(c: Change)
    ensures c.TypeName() == "NEW_COMPETITOR" <==> c.NewCompetitor?
    ensures c.FieldChange? ==> (c.SeverityName() == "CRITICAL" <==> c.field in ["revenue", "marketShare", "employees", "status"])
    ensures c.FieldChange? ==> (c.SeverityName() == "WARNING" <==> c.field in ["pricing", "services", "features"])
    ensures c.FieldChange? ==> (c.SeverityName() == "INFO" <==> c.field !in ["revenue", "marketShare", "employees", "status", "pricing", "services", "features"])
    ensures c.TypeName() == "CRITICAL_UPDATE" <==> c.SeverityName() == "CRITICAL"
    ensures c.TypeName() == "SIGNIFICANT_UPDATE" <==> c.SeverityName() == "WARNING"
    ensures c.TypeName() == "FIELD_UPDATED" <==> c.FieldChange? && c.SeverityName() == "INFO"
  {
  }

  /** One change per differing key, in key order. */
  function FieldChanges(oldItem: Record, newItem: Record, keys: seq<string>, now: int): (r: seq<Change>)
    ensures |r| == |keys|
    ensures forall i :: 0 <= i < |r| ==> r[i].FieldChange? && r[i].field == keys[i]
  {
    seq(|keys|, i requires 0 <= i < |keys| =>
      FieldChange(IdOf(newItem), newItem.Get("name"), keys[i], oldItem.Get(keys[i]), newItem.Get(keys[i]), now,
                  CalculateImpact(keys[i], oldItem.Get(keys[i]), newItem.Get(keys[i]))))
  }

  /** The changes one record of the new snapshot gives rise to. */
  function ItemChanges(oldData: seq<Record>, newItem: Record, now: int): seq<Change>
  {
    match FindById(oldData, IdOf(newItem))
    case None => [NewCompetitor(IdOf(newItem), newItem.Get("name"), newItem, now)]
    case Some(oldItem) => FieldChanges(oldItem, newItem, ChangedKeys(oldItem, newItem), now)
  }

  /** The changes of each record of the new snapshot, in order. */
  function PerItem(oldData: seq<Record>, newData: seq<Record>, now: int): (r: seq<seq<Change>>)
    ensures |r| == |newData|
    ensures forall j :: 0 <= j < |newData| ==> r[j] == ItemChanges(oldData, newData[j], now)
  {
    seq(|newData|, j requires 0 <= j < |newData| => ItemChanges(oldData, newData[j], now))
  }

  /** `detectChanges(oldData, newData)`, all changes stamped with `now`: the records of
      the new snapshot are visited in order and push their changes. */
  function DetectChanges(oldData: seq<Record>, newData: seq<Record>, now: int): seq<Change>
  {
    Flatten(PerItem(oldData, newData, now))
  }

  /** A record whose id the old snapshot lacks gives exactly one informational
      `NEW_COMPETITOR` change carrying the record, and no field change. */
  lemma NewItemChange(oldData: seq<Record>, newItem: Record, now: int)
    requires forall i :: 0 <= i < |oldData| ==> !StrictEq(IdOf(oldData[i]), IdOf(newItem))
    ensures |ItemChanges(oldData, newItem, now)| == 1
    ensures var c := ItemChanges(oldData, newItem, now)[0];
      && c.NewCompetitor? && c.TypeName() == "NEW_COMPETITOR" && c.SeverityName() == "INFO"
      && c.data == newItem && c.competitorId == IdOf(newItem) && c.competitorName == newItem.Get("name")
      && c.timestamp == now
  {
  }

  /** A matched record gives one change per key of the new record whose value is not
      `===` to the old one, in key order, with both values, its severity and its
      impact. */
  lemma MatchedItemChanges(oldData: seq<Record>, newItem: Record, now: int, oldItem: Record)
    requires FindById(oldData, IdOf(newItem)) == Some(oldItem)
    ensures var cs := ItemChanges(oldData, newItem, now);
      && IsSubsequence(seq(|cs|, i requires 0 <= i < |cs| => cs[i].field), newItem.OwnKeys())
      && (forall k :: k in seq(|cs|, i requires 0 <= i < |cs| => cs[i].field)
                      <==> k in newItem.keys && !StrictEq(oldItem.Get(k), newItem.Get(k)))
      && forall i :: 0 <= i < |cs| ==>
           && cs[i].FieldChange?
           && cs[i].competitorId == IdOf(newItem)
           && cs[i].competitorName == newItem.Get("name")
           && cs[i].timestamp == now
           && cs[i].oldValue == oldItem.Get(cs[i].field)
           && cs[i].newValue == newItem.Get(cs[i].field)
           && cs[i].Severity() == Classify(cs[i].field)
           && cs[i].impact == CalculateImpact(cs[i].field, cs[i].oldValue, cs[i].newValue)
  {
    ChangedKeysSpec(oldItem, newItem);
    var cs := ItemChanges(oldData, newItem, now);
    assert seq(|cs|, i requires 0 <= i < |cs| => cs[i].field) == ChangedKeys(oldItem, newItem);
  }

  /** Every change comes from one record of the new snapshot: records only the old
      snapshot has contribute nothing. */
  lemma DetectChangesOrigin(oldData: seq<Record>, newData: seq<Record>, now: int, c: Change)
    requires c in DetectChanges(oldData, newData, now)
    ensures exists j :: 0 <= j < |newData| && c in ItemChanges(oldData, newData[j], now)
  {
    FlattenOrigin(PerItem(oldData, newData, now), c);
  }

  /** Every change a record of the new snapshot gives rise to is reported. */
  lemma DetectChangesComplete(oldData: seq<Record>, newData: seq<Record>, now: int, j: int)
    requires 0 <= j < |newData|
    ensures forall c :: c in ItemChanges(oldData, newData[j], now) ==> c in DetectChanges(oldData, newData, now)
  {
    forall c | c in ItemChanges(oldData, newData[j], now)
      ensures c in DetectChanges(oldData, newData, now)
    {
      FlattenHas(PerItem(oldData, newData, now), j, c);
    }
  }

  /** The first record's changes come first, then the rest's. */
  lemma DetectChangesCons(oldData: seq<Record>, newData: seq<Record>, now: int)
    requires |newData| > 0
    ensures DetectChanges(oldData, newData, now)
         == ItemChanges(oldData, newData[0], now) + DetectChanges(oldData, newData[1..], now)
  {
    assert PerItem(oldData, newData, now)[1..] == PerItem(oldData, newData[1..], now);
  }

  /** Comparing a snapshot with unique ids to itself finds nothing. */
  lemma NoChangesAgainstItself(data: seq<Record>, now: int)
    requires UniqueIds(data)
    ensures DetectChanges(data, data, now) == []
  {
    var xss := PerItem(data, data, now);
    forall j | 0 <= j < |xss|
      ensures xss[j] == []
    {
      FindSelf(data, j);
      NoDifferingKeysWithItself(data[j], data[j].OwnKeys());
    }
    FlattenEmpty(xss);
  }
}
