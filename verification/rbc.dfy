/** The RBC Companies validation: reading revenue texts such as `11.8 млрд ₽`,
    comparing a reported revenue with the registry's, the per-company score, the store
    of results keyed by competitor id, and the statistics over that store. The registry
    (`searchCompany`, `getCompanyDetails`) is a parameter: two lookups, as its mock
    tables are. */
module Rbc {
  import opened Wrappers
  import opened JsText
  import opened JsValue

  // ---------------------------------------------------------------------------
  // parseFinancialValue

  datatype Unit = Billion | Million | Thousand

  /** The lower-case word that marks a unit. */
  function UnitWord(u: Unit): string
  {
    match u
    case Billion => "млрд"
    case Million => "млн"
    case Thousand => "тыс"
  }

  function UnitFactor(u: Unit): real
  {
    match u
    case Billion => 1000000000.0
    case Million => 1000000.0
    case Thousand => 1000.0
  }

  /** The unit a lower-cased text names, `млрд` before `млн` before `тыс`. */
  function UnitOf(lower: string): (r: Option<Unit>)
    ensures r == Some(Billion) <==> Contains(lower, "млрд")
    ensures r == Some(Million) <==> !Contains(lower, "млрд") && Contains(lower, "млн")
    ensures r == Some(Thousand) <==> !Contains(lower, "млрд") && !Contains(lower, "млн") && Contains(lower, "тыс")
    ensures r.None? <==> !Contains(lower, "млрд") && !Contains(lower, "млн") && !Contains(lower, "тыс")
  {
    if Contains(lower, "млрд") then Some(Billion)
    else if Contains(lower, "млн") then Some(Million)
    else if Contains(lower, "тыс") then Some(Thousand)
    else None
  }

  /** A JavaScript number as the financial code meets it: `NaN` or a finite value. */
  datatype Figure = NaN | Figure(value: real)

  /** `parseFloat(cleaned.replace(',', '.'))` where `cleaned` keeps only digits, commas
      and dots: the first comma reads as a decimal point. */
  function Amount(text: string): (r: Figure)
    ensures r.Figure? ==> r.value >= 0.0
  {
    match DecimalPrefix(ReplaceFirst(KeepNumeric(text), ',', '.'))
    case None => NaN
    case Some(x) => Figure(x)
  }

  /** `number * factor`, where `NaN` stays `NaN`. */
  function Scaled(number: Figure, factor: real): Figure
  {
    if number.NaN? then NaN else Figure(number.value * factor)
  }

  /** `number || 0`. */
  function OrZero(number: Figure): Figure
  {
    if number.NaN? then Figure(0.0) else number
  }

  /** `parseFinancialValue(value)`. A falsy value is `0`; any other value that is not a
      string has no `toLowerCase` and throws a `TypeError`; a string is scaled by the
      first unit it names, and without a unit a `NaN` becomes `0`. */
  function ParseFinancialValue(v: Value): (r: Result<Figure>)
    ensures !Truthy(v) ==> r == Ok(Figure(0.0))
    ensures Truthy(v) && !v.Str? ==> r == Thrown(TypeError)
    ensures v.Str? && Truthy(v) ==> r.Ok? && match UnitOf(ToLower(v.s))
      case Some(u) => r.value == Scaled(Amount(v.s), UnitFactor(u))
      case None => r.value == OrZero(Amount(v.s))
    ensures r.Ok? && r.value.Figure? ==> r.value.value >= 0.0
    ensures r.Ok? && r.value.NaN? ==> v.Str? && UnitOf(ToLower(v.s)).Some?
  {
    if !Truthy(v) then Ok(Figure(0.0))
    else if !v.Str? then Thrown(TypeError)
    else
      var number := Amount(ToStr(v));
      match UnitOf(ToLower(v.s))
      case Some(u) => Ok(Scaled(number, UnitFactor(u)))
      case None => Ok(OrZero(number))
  }

  lemma {:induction false} KeepNumericAppend(a: string, b: string)
    ensures KeepNumeric(a + b) == KeepNumeric(a) + KeepNumeric(b)
    decreases |a|
  {
    if |a| > 0 {
      var ab := a + b;
      assert ab[0] == a[0] && ab[1..] == a[1..] + b;
      KeepNumericAppend(a[1..], b);
      var h := if IsNumeric(a[0]) then [a[0]] else "";
      assert KeepNumeric(ab) == h + KeepNumeric(a[1..] + b);
      assert KeepNumeric(a) == h + KeepNumeric(a[1..]);
    } else {
      assert a + b == b;
    }
  }

  lemma DecimalOfDigits(n: nat)
    ensures DecimalPrefix(NatToString(n)).Some? && DecimalPrefix(NatToString(n)).value == n as real
  {
    var d := NatToString(n);
    DigitPrefixOfDigits(d, "", 10);
    assert d + "" == d;
    DigitsValueOfNatToString(n);
    var whole := DigitPrefix(d, 10);
    assert whole == d && d[|whole|..] == "";
    var x := DigitsValue(whole, 10) as real + DigitsValue("", 10) as real / Pow10(0) as real;
    assert x == n as real;
    assert DecimalPrefix(d) == Some(x);
  }

  lemma NotContainsForeign(hay: string, needle: string, c: char)
    requires c in needle && c !in hay
    ensures !Contains(hay, needle)
  {
    ContainsIsOccurrence(hay, needle);
    var k :| 0 <= k < |needle| && needle[k] == c;
    forall i | 0 <= i <= |hay| - |needle|
      ensures !OccursAt(hay, needle, i)
    {
      assert hay[i..i + |needle|][k] == hay[i + k];
    }
  }

  lemma {:induction false} KeepNumericNone(s: string)
    requires forall i :: 0 <= i < |s| ==> !IsNumeric(s[i])
    ensures KeepNumeric(s) == ""
    decreases |s|
  {
    if |s| > 0 {
      KeepNumericNone(s[1..]);
    }
  }

  lemma ContainsSuffix(front: string, needle: string)
    ensures Contains(front + needle, needle)
  {
    ContainsIsOccurrence(front + needle, needle);
    assert (front + needle)[|front|..|front| + |needle|] == needle;
    assert OccursAt(front + needle, needle, |front|);
  }

  /** The text of a whole amount with a unit, such as `12 млн`. */
  function AmountText(n: nat, u: Unit): string
  {
    NatToString(n) + " " + UnitWord(u)
  }

  /** The numeric characters of an amount text are its digits. */
  lemma {:induction false} KeepNumericOfAmountText(n: nat, u: Unit)
    ensures KeepNumeric(AmountText(n, u)) == NatToString(n)
  {
    var d := NatToString(n);
    var tail := " " + UnitWord(u);
    assert AmountText(n, u) == d + tail;
    KeepNumericAppend(d, tail);
    UnitTailNotNumeric(u);
    KeepNumericNone(tail);
    assert KeepNumeric(d) == d;
  }

  /** The space and unit word after the digits hold no numeric character. */
  lemma UnitTailNotNumeric(u: Unit)
    ensures forall i :: 0 <= i < |" " + UnitWord(u)| ==> !IsNumeric((" " + UnitWord(u))[i])
  {
    var tail := " " + UnitWord(u);
    forall i | 0 <= i < |tail|
      ensures !IsNumeric(tail[i])
    {
      match u
      case Billion => assert tail == [' ', 'м', 'л', 'р', 'д'];
      case Million => assert tail == [' ', 'м', 'л', 'н'];
      case Thousand => assert tail == [' ', 'т', 'ы', 'с'];
    }
  }

  /** An amount text reads as its whole amount. */
  lemma {:induction false} AmountOfText(n: nat, u: Unit)
    ensures Amount(AmountText(n, u)) == Figure(n as real)
  {
    var d := NatToString(n);
    KeepNumericOfAmountText(n, u);
    assert ',' !in d;
    assert ReplaceFirst(d, ',', '.') == d;
    DecimalOfDigits(n);
  }

  /** An amount text is already lower-case and names its own unit first. */
  lemma {:induction false} UnitOfText(n: nat, u: Unit)
    ensures UnitOf(ToLower(AmountText(n, u))) == Some(u)
  {
    var front := NatToString(n) + " ";
    assert AmountText(n, u) == front + UnitWord(u);
    FrontIsLower(front);
    WordIsLower(u);
    LowerAppend(front, UnitWord(u));
    UnitOfSuffix(front, u);
  }

  lemma FrontIsLower(front: string)
    requires forall i :: 0 <= i < |front| ==> IsDigit(front[i]) || front[i] == ' '
    ensures ToLower(front) == front
    ensures 'р' !in front && 'м' !in front
  {
  }

  lemma WordIsLower(u: Unit)
    ensures ToLower(UnitWord(u)) == UnitWord(u)
  {
    match u
    case Billion => assert UnitWord(u) == ['м', 'л', 'р', 'д'];
    case Million => assert UnitWord(u) == ['м', 'л', 'н'];
    case Thousand => assert UnitWord(u) == ['т', 'ы', 'с'];
  }

  lemma LowerAppend(a: string, b: string)
    ensures ToLower(a + b) == ToLower(a) + ToLower(b)
  {
  }

  /** A unit word after text with neither `р` nor `м` names that unit. */
  lemma UnitOfSuffix(front: string, u: Unit)
    requires 'р' !in front && 'м' !in front
    ensures UnitOf(front + UnitWord(u)) == Some(u)
  {
    var s := front + UnitWord(u);
    ContainsSuffix(front, UnitWord(u));
    match u
    case Billion =>
    case Million =>
      assert UnitWord(u) == ['м', 'л', 'н'];
      NotContainsForeign(s, "млрд", 'р');
    case Thousand =>
      assert UnitWord(u) == ['т', 'ы', 'с'];
      NotContainsForeign(s, "млрд", 'р');
      NotContainsForeign(s, "млн", 'м');
  }

  /** Reading back a whole amount written with a unit gives the amount times the
      unit's factor: `млн` is not mistaken for `млрд`, nor `тыс` for either. */
  lemma AmountTextReadsBack(n: nat, u: Unit)
    ensures ParseFinancialValue(Str(AmountText(n, u))) == Ok(Figure(n as real * UnitFactor(u)))
  {
    AmountOfText(n, u);
    UnitOfText(n, u);
    UnitTextReadsBack(AmountText(n, u), n as real, u);
  }

  /** A text that reads as `x` and names unit `u` parses to `x` times the unit. */
  lemma UnitTextReadsBack(t: string, x: real, u: Unit)
    requires t != "" && Amount(t) == Figure(x) && UnitOf(ToLower(t)) == Some(u)
    ensures ParseFinancialValue(Str(t)) == Ok(Figure(x * UnitFactor(u)))
  {
    var v := Str(t);
    assert Truthy(v);
    match u
    case Billion => assert ParseFinancialValue(v) == Ok(Scaled(Amount(t), 1000000000.0));
    case Million => assert ParseFinancialValue(v) == Ok(Scaled(Amount(t), 1000000.0));
    case Thousand => assert ParseFinancialValue(v) == Ok(Scaled(Amount(t), 1000.0));
  }

  // ---------------------------------------------------------------------------
  // validateFinancialData

  function Abs(x: real): real
  {
    if x < 0.0 then -x else x
  }

  /** `difference <= 20` with `difference = |reported - official| / official * 100`:
      false whenever the quotient is `NaN` or infinite, that is when either side is
      `NaN` or the official value is `0`. */
  predicate WithinTolerance(reported: Figure, official: Figure)
  {
    && reported.Figure? && official.Figure? && official.value != 0.0
    && Abs(reported.value - official.value) / official.value * 100.0 <= 20.0
  }

  /** For the non-negative values `parseFinancialValue` yields, the tolerance is the
      band from 80% to 120% of a positive official value. */
  lemma ToleranceBand(reported: real, official: real)
    requires official >= 0.0
    ensures WithinTolerance(Figure(reported), Figure(official)) <==>
      official > 0.0 && official * 0.8 <= reported <= official * 1.2
  {
    if official > 0.0 {
      var q := Abs(reported - official) / official;
      assert Abs(reported - official) == q * official;
    }
  }

  datatype Status = NotFound | NoFinancialData | Verified | Discrepancy | Failed

  /** The result of `validateFinancialData`, without its message text. `comparison`
      holds the reported and the official revenue when the two were compared. */
  datatype Validation = Validation(isValid: bool, status: Status, officialData: Value, comparison: Option<(Value, Value)>)

  /** `searchCompany(query)` and `getCompanyDetails(id)`. */
  datatype Registry = Registry(search: Value -> seq<Value>, details: Value -> Value)

  const ErrorValidation := Validation(false, Failed, Null, None)

  /** `validateFinancialData(companyName, reportedRevenue)`; a `TypeError` inside it
      (a search hit that is `null`, a revenue that is not a string) is caught and
      reported as `ERROR`. */
  function ValidateFinancialData(reg: Registry, companyName: Value, reported: Value): (r: Validation)
    ensures r.isValid <==> r.status == Verified
  {
    var hits := reg.search(companyName);
    if |hits| == 0 then Validation(false, NotFound, Null, None)
    else if IsNullish(hits[0]) then ErrorValidation
    else
      var details := reg.details(Prop(hits[0], "id"));
      if !Truthy(details) || !Truthy(Prop(details, "financialData")) then
        Validation(false, NoFinancialData, details, None)
      else
        var official := Prop(Prop(details, "financialData"), "revenue");
        match (ParseFinancialValue(reported), ParseFinancialValue(official))
        case (Ok(reportedValue), Ok(officialValue)) =>
          var ok := WithinTolerance(reportedValue, officialValue);
          Validation(ok, if ok then Verified else Discrepancy, details, Some((reported, official)))
        case _ => ErrorValidation
  }

  /** The registry's details for a company name, when its first search hit has an id
      to ask for. */
  function DetailsFor(reg: Registry, companyName: Value): Option<Value>
  {
    var hits := reg.search(companyName);
    if |hits| == 0 || IsNullish(hits[0]) then None else Some(reg.details(Prop(hits[0], "id")))
  }

  /** The official revenue text in a company's details. */
  function OfficialRevenue(details: Value): Value
  {
    Prop(Prop(details, "financialData"), "revenue")
  }

  /** An unknown company is `NOT_FOUND` and one without financial data is
      `NO_FINANCIAL_DATA`, both invalid; otherwise the data is `VERIFIED` exactly when
      both revenues read as numbers within tolerance, `DISCREPANCY` exactly when they
      read but are not within tolerance, and `ERROR` exactly when the first search hit
      is `null` or `undefined` or a revenue does not read. */
  lemma ValidateFinancialDataSpec(reg: Registry, companyName: Value, reported: Value)
    ensures var r := ValidateFinancialData(reg, companyName, reported);
      && (|reg.search(companyName)| == 0 ==> r.status == NotFound && !r.isValid)
      && (var d := DetailsFor(reg, companyName);
          d.Some? && (!Truthy(d.value) || !Truthy(Prop(d.value, "financialData"))) ==>
            r.status == NoFinancialData && !r.isValid && r.officialData == d.value)
      && (r.status == Verified <==>
            var d := DetailsFor(reg, companyName);
            && d.Some? && Truthy(d.value) && Truthy(Prop(d.value, "financialData"))
            && ParseFinancialValue(reported).Ok? && ParseFinancialValue(OfficialRevenue(d.value)).Ok?
            && WithinTolerance(ParseFinancialValue(reported).value,
                               ParseFinancialValue(OfficialRevenue(d.value)).value))
      && (r.status == Discrepancy <==>
            var d := DetailsFor(reg, companyName);
            && d.Some? && Truthy(d.value) && Truthy(Prop(d.value, "financialData"))
            && ParseFinancialValue(reported).Ok? && ParseFinancialValue(OfficialRevenue(d.value)).Ok?
            && !WithinTolerance(ParseFinancialValue(reported).value,
                                ParseFinancialValue(OfficialRevenue(d.value)).value))
      && (r.status == Discrepancy ==> r.comparison.Some? && r.comparison.value.0 == reported)
  {
  }

  /** The validation fails with `ERROR` exactly when the first search hit is `null` or
      `undefined`, or the company has financial data and one of the two revenues does
      not read. */
  lemma ValidateFinancialDataFails(reg: Registry, companyName: Value, reported: Value)
    ensures ValidateFinancialData(reg, companyName, reported).status == Failed <==>
      || (|reg.search(companyName)| > 0 && IsNullish(reg.search(companyName)[0]))
      || (var d := DetailsFor(reg, companyName);
          && d.Some? && Truthy(d.value) && Truthy(Prop(d.value, "financialData"))
          && (ParseFinancialValue(reported).Thrown? || ParseFinancialValue(OfficialRevenue(d.value)).Thrown?))
  {
  }

  /** A reported revenue that reads as the same positive amount as the official one
      is verified. */
  lemma SameAmountVerified(reg: Registry, companyName: Value, reported: Value)
    requires var d := DetailsFor(reg, companyName);
      && d.Some? && Truthy(d.value) && Truthy(Prop(d.value, "financialData"))
      && ParseFinancialValue(OfficialRevenue(d.value)).Ok?
      && ParseFinancialValue(OfficialRevenue(d.value)).value.Figure?
      && ParseFinancialValue(OfficialRevenue(d.value)).value.value > 0.0
      && ParseFinancialValue(reported) == ParseFinancialValue(OfficialRevenue(d.value))
    ensures ValidateFinancialData(reg, companyName, reported).status == Verified
  {
    var official := ParseFinancialValue(OfficialRevenue(DetailsFor(reg, companyName).value)).value.value;
    ToleranceBand(official, official);
    ValidateFinancialDataSpec(reg, companyName, reported);
  }

  /** A missing reported revenue (read as `0`) against a positive official one is a
      discrepancy. */
  lemma MissingAmountDiscrepancy(reg: Registry, companyName: Value, reported: Value)
    requires var d := DetailsFor(reg, companyName);
      && d.Some? && Truthy(d.value) && Truthy(Prop(d.value, "financialData"))
      && ParseFinancialValue(OfficialRevenue(d.value)).Ok?
      && ParseFinancialValue(OfficialRevenue(d.value)).value.Figure?
      && ParseFinancialValue(OfficialRevenue(d.value)).value.value > 0.0
    requires !Truthy(reported)
    ensures ValidateFinancialData(reg, companyName, reported).status == Discrepancy
  {
    var official := ParseFinancialValue(OfficialRevenue(DetailsFor(reg, companyName).value)).value.value;
    ToleranceBand(0.0, official);
    ValidateFinancialDataSpec(reg, companyName, reported);
  }

  // ---------------------------------------------------------------------------
  // getLegalInfo and validateCompany

  /** Whether `getLegalInfo(companyName)` returns an object, and the registry's
      `legalInfo` it copies from: a missing company, or details or `legalInfo` that are
      `null` or `undefined` (a `TypeError`, caught), give `null`. */
  function GetLegalInfo(reg: Registry, companyName: Value): (r: Option<Value>)
    ensures r.Some? ==> !IsNullish(r.value)
    ensures r.Some? <==>
      var d := DetailsFor(reg, companyName);
      d.Some? && !IsNullish(d.value) && !IsNullish(Prop(d.value, "legalInfo"))
    ensures r.Some? ==> r.value == Prop(DetailsFor(reg, companyName).value, "legalInfo")
  {
    match DetailsFor(reg, companyName)
    case None => None
    case Some(details) =>
      if IsNullish(details) || IsNullish(Prop(details, "legalInfo")) then None
      else Some(Prop(details, "legalInfo"))
  }

  /** The result of `validateCompany`: the checks that ran and the overall score. */
  datatype Report = Report(company: Value, legal: Option<Value>, financial: Option<Validation>,
                           overallScore: int, lastValidated: int)

  /** `validateCompany(competitor)` at time `now`. The legal check always runs and
      weighs 50; the financial check runs only for a truthy revenue and then adds 50 to
      the total. The score is `Math.round(score / totalChecks * 100)`, an exact
      integer here. */
  function ValidateCompany(reg: Registry, competitor: Record, now: int): (r: Report)
    ensures r.company == competitor.Get("name")
    ensures r.financial.Some? <==> Truthy(competitor.Get("revenue"))
  {
    var name := competitor.Get("name");
    var legal := GetLegalInfo(reg, name);
    var financial :=
      if Truthy(competitor.Get("revenue")) then Some(ValidateFinancialData(reg, name, competitor.Get("revenue")))
      else None;
    var score := (if legal.Some? then 50 else 0) + (if financial.Some? && financial.value.isValid then 50 else 0);
    var totalChecks := 50 + (if financial.Some? then 50 else 0);
    Report(name, legal, financial, score * 100 / totalChecks, now)
  }

  /** Without a financial check the score is 100 or 0 as the company is found or not;
      with one it is 50 per passed check. */
  lemma ScoreSpec(reg: Registry, competitor: Record, now: int)
    ensures var r := ValidateCompany(reg, competitor, now);
      && (r.financial.None? ==> r.overallScore in {0, 100} && (r.overallScore == 100 <==> r.legal.Some?))
      && (r.financial.Some? ==>
            && r.overallScore in {0, 50, 100}
            && r.overallScore == (if r.legal.Some? then 50 else 0) + (if r.financial.value.isValid then 50 else 0))
      && (r.overallScore == 100 <==> r.legal.Some? && (r.financial.None? || r.financial.value.status == Verified))
  {
  }

  // ---------------------------------------------------------------------------
  // The store of results: a `Map` keyed by competitor id

  /** The entries of `validationResults` in insertion order. */
  type Store = seq<(Value, Report)>

  /** `validationResults.get(key)`. A `Map` compares keys by SameValueZero, which
      differs from `===` only in that `NaN` finds itself; the model has no `NaN`, so
      the keys compare as `===` does. */
  function Lookup(store: Store, key: Value): (r: Option<Report>)
    ensures r.None? <==> forall i :: 0 <= i < |store| ==> !StrictEq(store[i].0, key)
    ensures r.Some? ==>
      exists i :: && 0 <= i < |store| && StrictEq(store[i].0, key) && r.value == store[i].1
                  && forall j :: 0 <= j < i ==> !StrictEq(store[j].0, key)
  {
    if |store| == 0 then None
    else if StrictEq(store[0].0, key) then Some(store[0].1)
    else
      var r := Lookup(store[1..], key);
      assert forall i :: 1 <= i < |store| ==> store[i] == store[1..][i - 1];
      r
  }

  /** `validationResults.set(key, v)`: an existing key keeps its place and gets the new
      value, a new key goes to the end. */
  function Put(store: Store, key: Value, v: Report): Store
  {
    if |store| == 0 then [(key, v)]
    else if StrictEq(store[0].0, key) then [(store[0].0, v)] + store[1..]
    else [store[0]] + Put(store[1..], key, v)
  }

  /** After `set`, `get` of that key (or one `===` to it) gives the new value, every
      other key is untouched, and the map grows exactly when the key was new. */
  lemma {:induction false} PutSpec(store: Store, key: Value, v: Report, other: Value)
    ensures StrictEq(key, other) ==> Lookup(Put(store, key, v), other) == Some(v)
    ensures !StrictEq(key, other) ==> Lookup(Put(store, key, v), other) == Lookup(store, other)
    ensures |Put(store, key, v)| == |store| + (if Lookup(store, key).None? then 1 else 0)
    decreases |store|
  {
    StrictEqIsEquivalence(key, other, key);
    if |store| > 0 {
      StrictEqIsEquivalence(store[0].0, key, other);
      StrictEqIsEquivalence(key, store[0].0, other);
      if !StrictEq(store[0].0, key) {
        PutSpec(store[1..], key, v, other);
        assert Put(store, key, v)[1..] == Put(store[1..], key, v);
      } else {
        assert Put(store, key, v)[1..] == store[1..];
      }
    }
  }

  /** `validateCompany` followed by the store update of its success path. */
  function ValidateAndStore(reg: Registry, store: Store, competitor: Record, now: int): (Report, Store)
  {
    var r := ValidateCompany(reg, competitor, now);
    (r, Put(store, competitor.Get("id"), r))
  }

  /** A validation is stored under the competitor's id, replacing what that id held,
      and no other id's entry changes. */
  lemma ValidateAndStoreSpec(reg: Registry, store: Store, competitor: Record, now: int, other: Value)
    ensures ValidateAndStore(reg, store, competitor, now).0 == ValidateCompany(reg, competitor, now)
    ensures Lookup(ValidateAndStore(reg, store, competitor, now).1, competitor.Get("id"))
            == Some(ValidateCompany(reg, competitor, now))
    ensures !StrictEq(competitor.Get("id"), other) ==>
              Lookup(ValidateAndStore(reg, store, competitor, now).1, other) == Lookup(store, other)
  {
    var id := competitor.Get("id");
    var r := ValidateCompany(reg, competitor, now);
    StrictEqIsEquivalence(id, id, id);
    PutSpec(store, id, r, id);
    PutSpec(store, id, r, other);
  }

  /** `validateAllCompanies(competitors)`: one report per competitor, in order, each
      stored under its id. */
  function ValidateAll(reg: Registry, store: Store, competitors: seq<Record>, now: int): (r: (seq<Report>, Store))
    ensures |r.0| == |competitors|
    ensures forall i :: 0 <= i < |competitors| ==> r.0[i] == ValidateCompany(reg, competitors[i], now)
    decreases |competitors|
  {
    if |competitors| == 0 then ([], store)
    else
      var (first, next) := ValidateAndStore(reg, store, competitors[0], now);
      var (rest, final) := ValidateAll(reg, next, competitors[1..], now);
      ([first] + rest, final)
  }

  /** `competitors[j]` is the last competitor whose id is `=== id`. */
  ghost predicate LastWithId(competitors: seq<Record>, id: Value, j: int)
  {
    && 0 <= j < |competitors|
    && StrictEq(competitors[j].Get("id"), id)
    && forall k :: j < k < |competitors| ==> !StrictEq(competitors[k].Get("id"), id)
  }

  lemma ValidateAllStep(reg: Registry, store: Store, competitors: seq<Record>, now: int)
    requires |competitors| > 0
    ensures ValidateAll(reg, store, competitors, now).1
         == ValidateAll(reg, Put(store, competitors[0].Get("id"), ValidateCompany(reg, competitors[0], now)),
                        competitors[1..], now).1
  {
  }

  /** After validating a list, an id no competitor has keeps what it held before. */
  lemma {:induction false} ValidateAllKeepsOthers(reg: Registry, store: Store, competitors: seq<Record>,
                                                  now: int, id: Value)
    requires forall j :: 0 <= j < |competitors| ==> !StrictEq(competitors[j].Get("id"), id)
    ensures Lookup(ValidateAll(reg, store, competitors, now).1, id) == Lookup(store, id)
    decreases |competitors|
  {
    if |competitors| > 0 {
      var c := competitors[0];
      var next := Put(store, c.Get("id"), ValidateCompany(reg, c, now));
      ValidateAllStep(reg, store, competitors, now);
      PutSpec(store, c.Get("id"), ValidateCompany(reg, c, now), id);
      assert forall j :: 0 <= j < |competitors[1..]| ==> competitors[1..][j] == competitors[j + 1];
      ValidateAllKeepsOthers(reg, next, competitors[1..], now, id);
    }
  }

  /** After validating a list, an id holds the report of the last competitor with that
      id. */
  lemma {:induction false} ValidateAllLastWins(reg: Registry, store: Store, competitors: seq<Record>,
                                               now: int, id: Value, j: int)
    requires LastWithId(competitors, id, j)
    ensures Lookup(ValidateAll(reg, store, competitors, now).1, id) == Some(ValidateCompany(reg, competitors[j], now))
    decreases |competitors|
  {
    var c := competitors[0];
    var next := Put(store, c.Get("id"), ValidateCompany(reg, c, now));
    var rest := competitors[1..];
    ValidateAllStep(reg, store, competitors, now);
    assert forall k :: 0 <= k < |rest| ==> rest[k] == competitors[k + 1];
    if j > 0 {
      assert LastWithId(rest, id, j - 1);
      ValidateAllLastWins(reg, next, rest, now, id, j - 1);
    } else {
      PutSpec(store, c.Get("id"), ValidateCompany(reg, c, now), id);
      ValidateAllKeepsOthers(reg, next, rest, now, id);
    }
  }

  // ---------------------------------------------------------------------------
  // getValidationResults and getValidationStats

  function Reports(store: Store): (r: seq<Report>)
    ensures |r| == |store|
    ensures forall i :: 0 <= i < |store| ==> r[i] == store[i].1
  {
    seq(|store|, i requires 0 <= i < |store| => store[i].1)
  }

  datatype Results = One(found: Option<Report>) | All(reports: seq<Report>)

  /** `getValidationResults(competitorId)`: one stored result for a truthy id, all of
      them, in insertion order, otherwise. */
  function GetValidationResults(store: Store, competitorId: Value): (r: Results)
    ensures Truthy(competitorId) ==> r.One? && (r.found.Some? <==> exists i :: 0 <= i < |store| && StrictEq(store[i].0, competitorId))
    ensures Truthy(competitorId) && r.found.Some? ==>
      exists i :: 0 <= i < |store| && StrictEq(store[i].0, competitorId) && r.found.value == store[i].1
    ensures !Truthy(competitorId) ==> r == All(Reports(store))
  {
    if Truthy(competitorId) then One(Lookup(store, competitorId)) else All(Reports(store))
  }

  predicate IsVerifiedScore(s: int) { s >= 80 }
  predicate IsPartialScore(s: int) { s >= 50 && s < 80 }
  predicate IsUnverifiedScore(s: int) { s < 50 }

  /** How many scores satisfy `p`. */
  function CountScores(scores: seq<int>, p: int -> bool): (n: nat)
    ensures n <= |scores|
  {
    if |scores| == 0 then 0 else (if p(scores[0]) then 1 else 0) + CountScores(scores[1..], p)
  }

  function SumScores(scores: seq<int>): int
  {
    if |scores| == 0 then 0 else scores[0] + SumScores(scores[1..])
  }

  /** `Math.round(sum / count)` for a positive count: halves round up. */
  function RoundedMean(sum: int, count: int): (r: int)
    requires count > 0
    ensures 2 * sum - count < 2 * count * r <= 2 * sum + count
  {
    (2 * sum + count) / (2 * count)
  }

  datatype Stats = Stats(total: nat, verified: nat, partial: nat, unverified: nat, averageScore: int)

  function Scores(store: Store): (r: seq<int>)
    ensures |r| == |store|
    ensures forall i :: 0 <= i < |store| ==> r[i] == store[i].1.overallScore
  {
    seq(|store|, i requires 0 <= i < |store| => store[i].1.overallScore)
  }

  /** `getValidationStats()`. */
  function GetValidationStats(store: Store): Stats
  {
    var scores := Scores(store);
    Stats(|scores|,
          CountScores(scores, IsVerifiedScore),
          CountScores(scores, IsPartialScore),
          CountScores(scores, IsUnverifiedScore),
          if |scores| > 0 then RoundedMean(SumScores(scores), |scores|) else 0)
  }

  lemma {:induction false} ScoreClassesPartition(scores: seq<int>)
    ensures CountScores(scores, IsVerifiedScore) + CountScores(scores, IsPartialScore)
            + CountScores(scores, IsUnverifiedScore) == |scores|
    decreases |scores|
  {
    if |scores| > 0 {
      ScoreClassesPartition(scores[1..]);
    }
  }

  lemma {:induction false} SumBounds(scores: seq<int>)
    requires forall i :: 0 <= i < |scores| ==> 0 <= scores[i] <= 100
    ensures 0 <= SumScores(scores) <= 100 * |scores|
    decreases |scores|
  {
    if |scores| > 0 {
      SumBounds(scores[1..]);
    }
  }

  /** Every stored result is counted exactly once as verified, partial or unverified,
      and the average of an empty store is `0`. */
  lemma StatsSpec(store: Store)
    ensures GetValidationStats(store).total == |store|
    ensures var s := GetValidationStats(store); s.verified + s.partial + s.unverified == s.total
    ensures |store| == 0 ==> GetValidationStats(store).averageScore == 0
  {
    ScoreClassesPartition(Scores(store));
  }

  /** Rounding the mean half up keeps it within 0..100 when every score is. */
  lemma RoundedMeanBounded(sum: int, count: int)
    requires count > 0 && 0 <= sum <= 100 * count
    ensures 0 <= RoundedMean(sum, count) <= 100
  {
    var r := RoundedMean(sum, count);
    var k := 2 * count;
    PositiveFactor(k, r);
    BoundedFactor(k, r, 100);
  }

  lemma PositiveFactor(k: int, r: int)
    requires k > 0 && k * r > -k
    ensures r >= 0
  {
  }

  lemma BoundedFactor(k: int, r: int, m: int)
    requires k > 0 && k * r < k * (m + 1)
    ensures r <= m
  {
  }

  /** The average score stays within 0..100 when every stored score does. */
  lemma StatsAverageBounded(store: Store)
    requires forall i :: 0 <= i < |store| ==> 0 <= store[i].1.overallScore <= 100
    ensures 0 <= GetValidationStats(store).averageScore <= 100
  {
    if |store| > 0 {
      var scores := Scores(store);
      SumBounds(scores);
      RoundedMeanBounded(SumScores(scores), |scores|);
    }
  }
}
