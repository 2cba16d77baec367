/** The two API routes with logic of their own: the competitor list filtered by category
    and search term, and the CSV download. */
module Routes {
  import opened Wrappers
  import opened JsText
  import opened JsValue
  import opened Seqs
  import Csv

  // ---------------------------------------------------------------------------
  // GET /api/competitors

  /** The body of the response; its timestamp is not modelled. */
  datatype Listing = Listing(competitors: seq<Record>, total: nat)

  /** The category filter runs for a non-empty category other than `'Все'` ("all"). */
  predicate FiltersCategory(category: Option<string>)
  {
    category.Some? && category.value != "" && category.value != "Все"
  }

  /** The search filter runs for a non-empty search term. */
  predicate FiltersSearch(search: Option<string>)
  {
    search.Some? && search.value != ""
  }

  /** `v.toLowerCase().includes(term.toLowerCase())` for a string `v`. */
  predicate MentionsLower(v: Value, term: string)
  {
    v.Str? && Contains(ToLower(v.s), ToLower(term))
  }

  /** The search callback: `toLowerCase` on a name or description that is not a string
      throws, and the description is only read when the name does not match. */
  function SearchMatch(c: Record, term: string): (r: Result<bool>)
    ensures r.Ok? <==> c.Get("name").Str? && (MentionsLower(c.Get("name"), term) || c.Get("description").Str?)
    ensures r.Ok? ==> (r.value <==> MentionsLower(c.Get("name"), term) || MentionsLower(c.Get("description"), term))
  {
    var name := c.Get("name");
    var description := c.Get("description");
    if !name.Str? then Thrown(TypeError)
    else if Contains(ToLower(name.s), ToLower(term)) then Ok(true)
    else if !description.Str? then Thrown(TypeError)
    else Ok(Contains(ToLower(description.s), ToLower(term)))
  }

  predicate Searchable(c: Record, term: string)
  {
    SearchMatch(c, term).Ok?
  }

  /** The search callback's verdict, when it does not throw. */
  function SearchTest(term: string): Record -> bool
  {
    (c: Record) => SearchMatch(c, term) == Ok(true)
  }

  /** `filter` with the search callback: the first exception ends the filtering. */
  function FilterBySearch(cs: seq<Record>, term: string): (r: Result<seq<Record>>)
    decreases |cs|
  {
    if |cs| == 0 then Ok([])
    else
      var keep :- SearchMatch(cs[0], term);
      var rest :- FilterBySearch(cs[1..], term);
      Ok(if keep then [cs[0]] + rest else rest)
  }

  /** The search filter fails exactly when some item cannot be searched, and otherwise
      keeps the items that match. */
  lemma {:induction false} FilterBySearchSpec(cs: seq<Record>, term: string)
    ensures FilterBySearch(cs, term).Ok? <==> forall i :: 0 <= i < |cs| ==> Searchable(cs[i], term)
    ensures FilterBySearch(cs, term).Ok? ==> FilterBySearch(cs, term).value == Filter(cs, SearchTest(term))
    decreases |cs|
  {
    if |cs| > 0 {
      FilterBySearchSpec(cs[1..], term);
      assert forall i :: 1 <= i < |cs| ==> cs[i] == cs[1..][i - 1];
    }
  }

  /** `GET(request)` on the static competitor list `all`. */
  function GetCompetitors(all: seq<Record>, category: Option<string>, search: Option<string>): Result<Listing>
  {
    var byCategory := if FiltersCategory(category) then OfCategory(all, category.value) else all;
    if FiltersSearch(search) then
      var found :- FilterBySearch(byCategory, search.value);
      Ok(Listing(found, |found|))
    else
      Ok(Listing(byCategory, |byCategory|))
  }

  /** An item passes the category filter: there is none, or its category is the one
      asked for. */
  predicate InCategory(c: Record, category: Option<string>)
  {
    !FiltersCategory(category) || c.Get("category") == Str(category.value)
  }

  /** An item passes the search filter: there is none, or its lower-cased name or
      description contains the lower-cased term. */
  predicate Found(c: Record, search: Option<string>)
  {
    !FiltersSearch(search) || MentionsLower(c.Get("name"), search.value) || MentionsLower(c.Get("description"), search.value)
  }

  /** `competitors.filter(c => c.category === category)`. */
  function OfCategory(all: seq<Record>, category: string): seq<Record>
  {
    Filter(all, CategoryTest(category))
  }

  /** The test `c.category === category`. */
  function CategoryTest(category: string): Record -> bool
  {
    (c: Record) => StrictEq(c.Get("category"), Str(category))
  }

  /** The category filter keeps, in order, exactly the items of that category, each as
      often as it occurs. */
  lemma OfCategorySpec(all: seq<Record>, category: string)
    ensures IsSubsequence(OfCategory(all, category), all)
    ensures forall c :: c in OfCategory(all, category) <==> c in all && c.Get("category") == Str(category)
    ensures forall c ::
      multiset(OfCategory(all, category))[c] == if c.Get("category") == Str(category) then multiset(all)[c] else 0
  {
    var wanted := Str(category);
    FilterSpec(all, CategoryTest(category));
    forall c: Record
      ensures CategoryTest(category)(c) <==> c.Get("category") == wanted
    {
      StrictEqIsEquivalence(wanted, c.Get("category"), wanted);
    }
  }

  /** The test "passes the category and the search filter". */
  function Listed(category: Option<string>, search: Option<string>): Record -> bool
  {
    (c: Record) => InCategory(c, category) && Found(c, search)
  }

  /** The listing is the input in its order with the items left out that fail the
      category or the search filter; `total` is its length. Without a category (or with
      `'Все'`) and without a term nothing is left out. The request fails only when an
      item that reached the search filter has a name or description that is not a
      string. */
  lemma GetCompetitorsSpec(all: seq<Record>, category: Option<string>, search: Option<string>)
    ensures var r := GetCompetitors(all, category, search);
      && (r.Ok? ==> r.value.total == |r.value.competitors|)
      && (r.Ok? ==> IsSubsequence(r.value.competitors, all))
      && (r.Ok? ==> forall c :: c in r.value.competitors <==> c in all && InCategory(c, category) && Found(c, search))
      && (r.Ok? ==> r.value.competitors == Filter(all, Listed(category, search)))
      && (!FiltersCategory(category) && !FiltersSearch(search) ==> r == Ok(Listing(all, |all|)))
      && (r.Thrown? ==> exists c :: c in all && InCategory(c, category) && !Searchable(c, search.value))
  {
    GetCompetitorsIsFilter(all, category, search);
    FilterSpec(all, Listed(category, search));
    var r := GetCompetitors(all, category, search);
    if r.Thrown? {
      GetCompetitorsThrows(all, category, search);
    }
  }

  /** The request fails only on an item of the category that cannot be searched. */
  lemma GetCompetitorsThrows(all: seq<Record>, category: Option<string>, search: Option<string>)
    requires GetCompetitors(all, category, search).Thrown?
    ensures FiltersSearch(search)
    ensures exists c :: c in all && InCategory(c, category) && !Searchable(c, search.value)
  {
    ByCategory(all, category);
    var byCategory := Filter(all, CategoryPass(category));
    assert FilterBySearch(byCategory, search.value).Thrown?;
    FilterBySearchSpec(byCategory, search.value);
    var i :| 0 <= i < |byCategory| && !Searchable(byCategory[i], search.value);
    FilterSpec(all, CategoryPass(category));
    assert byCategory[i] in byCategory;
  }

  /** On an item that can be searched, the callback keeps it exactly when it is
      found. */
  lemma SearchTestIsFound(c: Record, term: string)
    requires Searchable(c, term) && term != ""
    ensures SearchTest(term)(c) == Found(c, Some(term))
  {
  }

  /** The test "passes the category filter". */
  function CategoryPass(category: Option<string>): Record -> bool
  {
    (c: Record) => InCategory(c, category)
  }

  /** What reaches the search filter is the input filtered by category. */
  lemma ByCategory(all: seq<Record>, category: Option<string>)
    ensures (if FiltersCategory(category) then OfCategory(all, category.value) else all)
         == Filter(all, CategoryPass(category))
  {
    if FiltersCategory(category) {
      var wanted := Str(category.value);
      forall i | 0 <= i < |all|
        ensures CategoryTest(category.value)(all[i]) == CategoryPass(category)(all[i])
      {
        StrictEqIsEquivalence(wanted, all[i].Get("category"), wanted);
      }
      FilterCongruent(all, CategoryTest(category.value), CategoryPass(category));
    } else {
      FilterAll(all, CategoryPass(category));
    }
  }

  /** When every item of the category can be searched, searching what the category
      filter kept is filtering by both tests. */
  lemma ListedBySearch(all: seq<Record>, category: Option<string>, term: string, kept: seq<Record>)
    requires term != ""
    requires kept == Filter(all, CategoryPass(category))
    requires forall k :: 0 <= k < |kept| ==> Searchable(kept[k], term)
    ensures Filter(kept, SearchTest(term)) == Filter(all, Listed(category, Some(term)))
  {
    FilterSpec(all, CategoryPass(category));
    forall i | 0 <= i < |all|
      ensures Listed(category, Some(term))(all[i]) == (CategoryPass(category)(all[i]) && SearchTest(term)(all[i]))
    {
      if InCategory(all[i], category) {
        assert all[i] in kept;
        var k :| 0 <= k < |kept| && kept[k] == all[i];
        assert Searchable(kept[k], term);
      }
      ListedItem(all[i], category, term);
    }
    FilterFilter(all, CategoryPass(category), SearchTest(term), Listed(category, Some(term)));
  }

  /** One item passes both tests exactly when both callbacks keep it. */
  lemma ListedItem(c: Record, category: Option<string>, term: string)
    requires term != ""
    requires InCategory(c, category) ==> Searchable(c, term)
    ensures Listed(category, Some(term))(c) == (CategoryPass(category)(c) && SearchTest(term)(c))
  {
    if InCategory(c, category) {
      SearchTestIsFound(c, term);
    }
  }

  /** Without a search term, only the category test decides. */
  lemma ListedWithoutSearch(all: seq<Record>, category: Option<string>, search: Option<string>)
    requires !FiltersSearch(search)
    ensures Filter(all, CategoryPass(category)) == Filter(all, Listed(category, search))
  {
    FilterCongruent(all, CategoryPass(category), Listed(category, search));
  }

  /** The listing is the input filtered by both tests at once. */
  lemma GetCompetitorsIsFilter(all: seq<Record>, category: Option<string>, search: Option<string>)
    ensures var r := GetCompetitors(all, category, search);
      r.Ok? ==> r.value.competitors == Filter(all, Listed(category, search))
  {
    var r := GetCompetitors(all, category, search);
    ByCategory(all, category);
    var byCategory := Filter(all, CategoryPass(category));
    if r.Ok? {
      if FiltersSearch(search) {
        FilterBySearchSpec(byCategory, search.value);
        ListedBySearch(all, category, search.value, byCategory);
      } else {
        ListedWithoutSearch(all, category, search);
      }
    }
  }

  // ---------------------------------------------------------------------------
  // POST /api/export

  /** The thirteen column names of the header line. */
  function ExportHeader(j: int): string
  {
    match j
    case 0 => "ID"
    case 1 => "Название Сервиса"
    case 2 => "URL"
    case 3 => "Категория Сервиса"
    case 4 => "География"
    case 5 => "Тип Н/Д"
    case 6 => "Описание"
    case 7 => "Монетизация"
    case 8 => "Статус"
    case 9 => "Цена"
    case 10 => "Рейтинг"
    case 11 => "Доля рынка"
    case _ => "Выручка"
  }

  function ExportHeaders(): (r: seq<string>)
    ensures |r| == 13
    ensures forall j :: 0 <= j < 13 ==> r[j] == ExportHeader(j)
  {
    seq(13, j requires 0 <= j < 13 => ExportHeader(j))
  }

  /** `value || 'н/д'` ("no data") inside a template literal. */
  function OrNoData(v: Value): (r: string)
    ensures Truthy(v) ==> r == ToStr(v)
    ensures !Truthy(v) ==> r == "н/д"
  {
    ToStr(Or(v, Str("н/д")))
  }

  /** The thirteen fields of one competitor's line. A value placed directly in the
      array is rendered by `join`, so `null` and `undefined` give the empty string; a
      value inside `"${...}"` is rendered by the template literal, which writes them
      out. */
  function ExportCells(comp: Record): (r: seq<Csv.Cell>)
    ensures |r| == |ExportHeaders()|
  {
    [Csv.Plain(ElemStr(comp.Get("id"))),
     Csv.Quoted(ToStr(comp.Get("name"))),
     Csv.Plain(ElemStr(comp.Get("url"))),
     Csv.Quoted(ToStr(comp.Get("category"))),
     Csv.Quoted(ToStr(comp.Get("geography"))),
     Csv.Quoted(ToStr(comp.Get("propertyType"))),
     Csv.Quoted(ToStr(comp.Get("description"))),
     Csv.Quoted(ToStr(comp.Get("monetization"))),
     Csv.Plain(ElemStr(comp.Get("status"))),
     Csv.Quoted(ToStr(comp.Get("price"))),
     Csv.Plain(ElemStr(comp.Get("rating"))),
     Csv.Quoted(OrNoData(comp.Get("marketShare"))),
     Csv.Quoted(OrNoData(comp.Get("revenue")))]
  }

  /** How the route writes a field: a quoted one between double quotes, with the
      quotes inside it left as they are. */
  function RenderUnescaped(c: Csv.Cell): string
  {
    match c
    case Plain(text) => text
    case Quoted(text) => "\"" + text + "\""
  }

  function UnescapedCells(cells: seq<Csv.Cell>): (r: seq<string>)
    ensures |r| == |cells|
    ensures forall i :: 0 <= i < |cells| ==> r[i] == RenderUnescaped(cells[i])
  {
    seq(|cells|, i requires 0 <= i < |cells| => RenderUnescaped(cells[i]))
  }

  const HeaderLine: string := Join(ExportHeaders(), ",")

  /** One competitor's line as the route writes it. */
  function ExportRow(comp: Record): string
  {
    Join(UnescapedCells(ExportCells(comp)), ",")
  }

  function ExportRows(competitors: seq<Record>): (r: seq<string>)
    ensures |r| == |competitors|
    ensures forall i :: 0 <= i < |competitors| ==> r[i] == ExportRow(competitors[i])
  {
    seq(|competitors|, i requires 0 <= i < |competitors| => ExportRow(competitors[i]))
  }

  /** The body of the response to `POST(request)`: the header line and one line per
      competitor, joined by line feeds. */
  function ExportCsv(competitors: seq<Record>): string
  {
    Join([HeaderLine] + ExportRows(competitors), "\n")
  }

  /** One competitor's line with its quoted fields escaped as section 2 of RFC 4180
      asks (item 7): a double quote inside the field is written twice. */
  function EscapedExportRow(comp: Record): string
  {
    Csv.RenderLine(ExportCells(comp), ',')
  }

  function EscapedExportRows(competitors: seq<Record>): (r: seq<string>)
    ensures |r| == |competitors|
    ensures forall i :: 0 <= i < |competitors| ==> r[i] == EscapedExportRow(competitors[i])
  {
    seq(|competitors|, i requires 0 <= i < |competitors| => EscapedExportRow(competitors[i]))
  }

  /** The body of the response with the quoted fields escaped. */
  function EscapedExportCsv(competitors: seq<Record>): string
  {
    Join([HeaderLine] + EscapedExportRows(competitors), "\n")
  }

  /** The fields written without quotes hold no comma and no double quote: the id,
      URL, status and rating. */
  predicate PlainFieldsReadable(comp: Record)
  {
    forall j :: 0 <= j < |ExportCells(comp)| ==> Csv.Readable(ExportCells(comp)[j], ',')
  }

  /** No field of the line holds a line feed. */
  predicate SingleLine(comp: Record)
  {
    forall j :: 0 <= j < |ExportCells(comp)| ==> '\n' !in ExportCells(comp)[j].text
  }

  /** No quoted field holds a double quote, so leaving them unescaped is harmless. */
  predicate NoQuotesInQuotedFields(comp: Record)
  {
    forall j :: 0 <= j < |ExportCells(comp)| ==> ExportCells(comp)[j].Quoted? ==> '"' !in ExportCells(comp)[j].text
  }

  /** The fields a reader finds on a competitor's line, in terms of the competitor. */
  function ExpectedFields(comp: Record): (r: seq<string>)
    ensures |r| == |ExportHeaders()|
    ensures r[11] == (if Truthy(comp.Get("marketShare")) then ToStr(comp.Get("marketShare")) else "н/д")
    ensures r[12] == (if Truthy(comp.Get("revenue")) then ToStr(comp.Get("revenue")) else "н/д")
  {
    [ElemStr(comp.Get("id")), ToStr(comp.Get("name")), ElemStr(comp.Get("url")),
     ToStr(comp.Get("category")), ToStr(comp.Get("geography")), ToStr(comp.Get("propertyType")),
     ToStr(comp.Get("description")), ToStr(comp.Get("monetization")), ElemStr(comp.Get("status")),
     ToStr(comp.Get("price")), ElemStr(comp.Get("rating")),
     OrNoData(comp.Get("marketShare")), OrNoData(comp.Get("revenue"))]
  }

  /** No column name holds a comma, a double quote or a line feed. */
  predicate PlainText(text: string)
  {
    ',' !in text && '"' !in text && '\n' !in text
  }

  lemma HeaderIsPlain(j: int)
    requires 0 <= j < |ExportHeaders()|
    ensures PlainText(ExportHeaders()[j])
  {
    if j < 2 {
      FirstHeadersArePlain(j);
    } else if j < 4 {
      SecondHeadersArePlain(j);
    } else if j < 8 {
      MiddleHeadersArePlain(j);
    } else {
      LastHeadersArePlain(j);
    }
  }

  lemma FirstHeadersArePlain(j: int)
    requires 0 <= j < 2
    ensures PlainText(ExportHeader(j))
  {
  }

  lemma SecondHeadersArePlain(j: int)
    requires 2 <= j < 4
    ensures PlainText(ExportHeader(j))
  {
  }

  lemma MiddleHeadersArePlain(j: int)
    requires 4 <= j < 8
    ensures PlainText(ExportHeader(j))
  {
  }

  lemma LastHeadersArePlain(j: int)
    requires 8 <= j < 13
    ensures PlainText(ExportHeader(j))
  {
  }

  /** The header line reads back as the thirteen column names and is a single line. */
  lemma HeaderLineReadsBack()
    ensures Csv.ParseLine(HeaderLine, ',') == Some(ExportHeaders())
    ensures '\n' !in HeaderLine
  {
    var cells := seq(|ExportHeaders()|, i requires 0 <= i < |ExportHeaders()| => Csv.Plain(ExportHeaders()[i]));
    forall i | 0 <= i < |ExportHeaders()|
      ensures PlainText(ExportHeaders()[i])
    {
      HeaderIsPlain(i);
    }
    assert Csv.Rendered(cells) == ExportHeaders();
    assert Csv.Texts(cells) == ExportHeaders();
    Csv.ParseRenderedLine(cells, ',');
    JoinExcludes(ExportHeaders(), ",", '\n');
  }

  /** With the escaping added, a competitor's line reads back, under section 2 of
      RFC 4180, as its thirteen fields whatever the quoted ones contain; a falsy market
      share or revenue reads as `н/д`. */
  lemma EscapedRowReadsBack(comp: Record)
    requires PlainFieldsReadable(comp)
    ensures Csv.ParseLine(EscapedExportRow(comp), ',') == Some(ExpectedFields(comp))
  {
    Csv.ParseRenderedLine(ExportCells(comp), ',');
    CellTexts(comp);
  }

  lemma CellTexts(comp: Record)
    ensures Csv.Texts(ExportCells(comp)) == ExpectedFields(comp)
  {
    var cells := ExportCells(comp);
    var texts := Csv.Texts(cells);
    var expected := ExpectedFields(comp);
    forall j | 0 <= j < |ExportHeaders()|
      ensures texts[j] == expected[j]
    {
      assert texts[j] == cells[j].text;
    }
  }

  /** When no quoted field holds a double quote, the line as written is the escaped
      line, so it reads back as its thirteen fields too. */
  lemma RowReadsBack(comp: Record)
    requires PlainFieldsReadable(comp) && NoQuotesInQuotedFields(comp)
    ensures ExportRow(comp) == EscapedExportRow(comp)
    ensures Csv.ParseLine(ExportRow(comp), ',') == Some(ExpectedFields(comp))
  {
    var cells := ExportCells(comp);
    forall j | 0 <= j < |cells|
      ensures RenderUnescaped(cells[j]) == Csv.Render(cells[j])
    {
      if cells[j].Quoted? {
        assert Csv.Escape(cells[j].text) == cells[j].text;
      }
    }
    assert UnescapedCells(cells) == Csv.Rendered(cells);
    EscapedRowReadsBack(comp);
  }

  /** An empty first field and a second field `"a"b"`: the quote after `a` closes the
      field, and the `b` after it is neither a separator nor the end of the line. */
  lemma QuoteInsideBreaksLine(tail: string)
    ensures Csv.ParseLine(",\"a\"b\"," + tail, ',') == None
  {
    var s := ",\"a\"b\"," + tail;
    assert Before(s, ',') == "";
    assert s[1..] == "\"a\"b\"," + tail;
    var body := "a\"b\"," + tail;
    assert s[1..][1..] == body;
    assert body[1..] == "\"b\"," + tail;
    assert body[1..][1..] == "b\"," + tail;
    assert Csv.ParseQuotedBody(body[1..]) == Some(("", "b\"," + tail));
    assert body[0] == 'a' && [body[0]] + "" == "a";
    assert Csv.ParseQuotedBody(body) == Some(("a", "b\"," + tail));
    assert Csv.ParseLine(s[1..], ',') == None;
  }

  lemma QuotedNameRow(comp: Record)
    requires comp.Get("id").Undefined? && comp.Get("name") == Str("a\"b")
    ensures ExportRow(comp) == ",\"a\"b\"," + Join(UnescapedCells(ExportCells(comp))[2..], ",")
  {
    var parts := UnescapedCells(ExportCells(comp));
    var tail := Join(parts[2..], ",");
    assert parts[0] == "";
    assert parts[1] == "\"a\"b\"";
    assert Join(parts, ",") == parts[0] + "," + Join(parts[1..], ",");
    assert parts[1..][1..] == parts[2..];
    assert Join(parts[1..], ",") == parts[1] + "," + tail;
  }

  /** A name holding a double quote ends its field early: the line as written cannot
      be read at all, while the escaped line reads back. */
  lemma UnescapedQuoteBreaksRow(comp: Record)
    requires comp.Get("id").Undefined? && comp.Get("name") == Str("a\"b")
    requires PlainFieldsReadable(comp)
    ensures Csv.ParseLine(ExportRow(comp), ',') == None
    ensures Csv.ParseLine(EscapedExportRow(comp), ',') == Some(ExpectedFields(comp))
  {
    QuotedNameRow(comp);
    QuoteInsideBreaksLine(Join(UnescapedCells(ExportCells(comp))[2..], ","));
    EscapedRowReadsBack(comp);
  }

  /** Splitting the body at line feeds gives the header line and then one line per
      competitor, so there is no line feed after the last line, provided no field holds
      a line feed. */
  lemma ExportCsvLines(competitors: seq<Record>)
    requires forall i :: 0 <= i < |competitors| ==> SingleLine(competitors[i])
    ensures Split(ExportCsv(competitors), '\n') == [HeaderLine] + ExportRows(competitors)
    ensures |Split(ExportCsv(competitors), '\n')| == |competitors| + 1
    ensures Csv.ParseLine(Split(ExportCsv(competitors), '\n')[0], ',') == Some(ExportHeaders())
  {
    var lines := [HeaderLine] + ExportRows(competitors);
    HeaderLineReadsBack();
    forall i | 0 <= i < |lines|
      ensures '\n' !in lines[i]
    {
      if i > 0 {
        RowSingleLine(competitors[i - 1]);
      }
    }
    SplitJoin(lines, '\n');
  }

  /** Writing a field, escaped or not, adds only double quotes. */
  lemma RenderKeeps(c: Csv.Cell, ch: char)
    requires ch != '"' && ch !in c.text
    ensures ch !in RenderUnescaped(c) && ch !in Csv.Render(c)
  {
    Csv.EscapeKeepsOthers(c.text);
  }

  lemma RowSingleLine(comp: Record)
    requires SingleLine(comp)
    ensures '\n' !in ExportRow(comp)
    ensures '\n' !in EscapedExportRow(comp)
  {
    var cells := ExportCells(comp);
    forall j | 0 <= j < |cells|
      ensures '\n' !in RenderUnescaped(cells[j]) && '\n' !in Csv.Render(cells[j])
    {
      RenderKeeps(cells[j], '\n');
    }
    JoinExcludes(UnescapedCells(cells), ",", '\n');
    JoinExcludes(Csv.Rendered(cells), ",", '\n');
  }

  /** The escaped body has the same line structure: a header and one line per
      competitor. */
  lemma EscapedExportCsvLines(competitors: seq<Record>)
    requires forall i :: 0 <= i < |competitors| ==> SingleLine(competitors[i])
    ensures Split(EscapedExportCsv(competitors), '\n') == [HeaderLine] + EscapedExportRows(competitors)
  {
    var lines := [HeaderLine] + EscapedExportRows(competitors);
    HeaderLineReadsBack();
    forall i | 0 <= i < |lines|
      ensures '\n' !in lines[i]
    {
      if i > 0 {
        RowSingleLine(competitors[i - 1]);
      }
    }
    SplitJoin(lines, '\n');
  }
}
