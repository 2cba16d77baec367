/** Quoted CSV fields as section 2 of RFC 4180 defines them (items 5 to 7): a field is
    enclosed in double quotes and a double quote inside it is written twice. The
    parser is the reading side, against which the writer is proved. */
module Csv {
  import opened Wrappers
  import opened JsText

  /** `text.replace(/"/g, '""')`. */
  function Escape(text: string): (r: string)
    ensures |r| >= |text|
    ensures '"' !in text ==> r == text
  {
    if |text| == 0 then ""
    else (if text[0] == '"' then "\"\"" else [text[0]]) + Escape(text[1..])
  }

  /** Escaping adds only double quotes and loses no other character. */
  lemma {:induction false} EscapeKeepsOthers(text: string)
    ensures forall c :: c != '"' ==> (c in Escape(text) <==> c in text)
    decreases |text|
  {
    if |text| > 0 {
      EscapeKeepsOthers(text[1..]);
      assert text == [text[0]] + text[1..];
    }
  }

  /** `"${escaped}"`: a field enclosed in double quotes. */
  function Quote(text: string): string
  {
    "\"" + Escape(text) + "\""
  }

  /** Reads the inside of a quoted field, just after its opening quote: `""` stands for
      one quote and a lone quote closes the field. Gives the text and what follows the
      closing quote, or `None` when the field is never closed. */
  function ParseQuotedBody(s: string): (r: Option<(string, string)>)
    ensures r.Some? ==> |r.value.1| < |s|
  {
    if |s| == 0 then None
    else if s[0] == '"' then
      if |s| > 1 && s[1] == '"' then
        match ParseQuotedBody(s[2..])
        case None => None
        case Some((text, rest)) => Some(("\"" + text, rest))
      else Some(("", s[1..]))
    else
      match ParseQuotedBody(s[1..])
      case None => None
      case Some((text, rest)) => Some(([s[0]] + text, rest))
  }

  /** Reads one line of fields separated by `delim`. A field that starts with a double
      quote is a quoted field and must be followed by `delim` or the end of the line; any
      other field runs to the next `delim` and may not contain a double quote. A line
      always holds at least one field. */
  function ParseLine(s: string, delim: char): Option<seq<string>>
    decreases |s|
  {
    if |s| > 0 && s[0] == '"' then
      match ParseQuotedBody(s[1..])
      case None => None
      case Some((text, rest)) =>
        if |rest| == 0 then Some([text])
        else if rest[0] != delim then None
        else
          match ParseLine(rest[1..], delim)
          case None => None
          case Some(more) => Some([text] + more)
    else
      var field := Before(s, delim);
      if '"' in field then None
      else if |field| == |s| then Some([field])
      else
        match ParseLine(s[|field| + 1..], delim)
        case None => None
        case Some(more) => Some([field] + more)
  }

  /** Reads a record; the empty line is the record with no field. */
  function ParseRecord(line: string, delim: char): Option<seq<string>>
  {
    if |line| == 0 then Some([]) else ParseLine(line, delim)
  }

  /** A field as a writer emits it: the text as it is, or enclosed in quotes with its
      quotes doubled. */
  datatype Cell = Plain(text: string) | Quoted(text: string)

  function Render(c: Cell): string
  {
    match c
    case Plain(text) => text
    case Quoted(text) => Quote(text)
  }

  /** A field reads back as its text: a plain text holds neither the separator nor a
      double quote. */
  predicate Readable(c: Cell, delim: char)
  {
    c.Plain? ==> delim !in c.text && '"' !in c.text
  }

  function Texts(cells: seq<Cell>): (r: seq<string>)
    ensures |r| == |cells|
    ensures forall i :: 0 <= i < |cells| ==> r[i] == cells[i].text
  {
    seq(|cells|, i requires 0 <= i < |cells| => cells[i].text)
  }

  function Rendered(cells: seq<Cell>): (r: seq<string>)
    ensures |r| == |cells|
    ensures forall i :: 0 <= i < |cells| ==> r[i] == Render(cells[i])
  {
    seq(|cells|, i requires 0 <= i < |cells| => Render(cells[i]))
  }

  /** The fields of a line, separated by `delim`. */
  function RenderLine(cells: seq<Cell>, delim: char): string
  {
    Join(Rendered(cells), [delim])
  }

  /** Every text written with `Quote`. */
  function QuotedCells(texts: seq<string>): (r: seq<string>)
    ensures |r| == |texts|
    ensures forall i :: 0 <= i < |texts| ==> r[i] == Quote(texts[i])
  {
    seq(|texts|, i requires 0 <= i < |texts| => Quote(texts[i]))
  }

  /** The fields of a record written with `Quote`, separated by `delim`. */
  function QuotedRecord(texts: seq<string>, delim: char): string
  {
    Join(QuotedCells(texts), [delim])
  }

  lemma {:induction false} ParseEscaped(text: string, rest: string)
    requires |rest| == 0 || rest[0] != '"'
    ensures ParseQuotedBody(Escape(text) + "\"" + rest) == Some((text, rest))
    decreases |text|
  {
    if |text| == 0 {
      assert Escape(text) + "\"" + rest == "\"" + rest;
      assert ("\"" + rest)[1..] == rest;
    } else {
      ParseEscaped(text[1..], rest);
      var e := Escape(text[1..]);
      if text[0] == '"' {
        assert Escape(text) == "\"\"" + e;
        QuotedBodyPair(e, rest, text[1..]);
        assert "\"" + text[1..] == text;
      } else {
        assert Escape(text) == [text[0]] + e;
        QuotedBodyChar(text[0], e, rest, text[1..]);
        assert [text[0]] + text[1..] == text;
      }
    }
  }

  /** A doubled quote inside a quoted field reads as one quote. */
  lemma QuotedBodyPair(e: string, rest: string, text: string)
    requires ParseQuotedBody(e + "\"" + rest) == Some((text, rest))
    ensures ParseQuotedBody(("\"\"" + e) + "\"" + rest) == Some(("\"" + text, rest))
  {
    var s := ("\"\"" + e) + "\"" + rest;
    assert s[0] == '"' && s[1] == '"';
    assert s[2..] == e + "\"" + rest;
  }

  /** Any other character inside a quoted field reads as itself. */
  lemma QuotedBodyChar(c: char, e: string, rest: string, text: string)
    requires c != '"'
    requires ParseQuotedBody(e + "\"" + rest) == Some((text, rest))
    ensures ParseQuotedBody(([c] + e) + "\"" + rest) == Some(([c] + text, rest))
  {
    var s := ([c] + e) + "\"" + rest;
    assert s[0] == c;
    assert s[1..] == e + "\"" + rest;
  }

  lemma ParsePlainLast(text: string, delim: char)
    requires Readable(Plain(text), delim)
    ensures ParseLine(text, delim) == Some([text])
  {
    BeforeSeparator(text, delim, "");
    assert text + "" == text;
    assert |text| > 0 ==> text[0] in text;
  }

  lemma NoLeadingQuote(text: string, after: string)
    requires '"' !in text && |after| > 0 && after[0] != '"'
    ensures (text + after)[0] != '"'
  {
    if |text| > 0 {
      assert (text + after)[0] == text[0];
    }
  }

  lemma ParsePlainThen(text: string, delim: char, after: string, more: seq<string>)
    requires delim != '"' && Readable(Plain(text), delim)
    requires |after| > 0 && after[0] == delim && ParseLine(after[1..], delim) == Some(more)
    ensures ParseLine(text + after, delim) == Some([text] + more)
  {
    var s := text + after;
    BeforeSeparator(text, delim, after);
    assert Before(after, delim) == "";
    var field := Before(s, delim);
    assert field == text;
    NoLeadingQuote(text, after);
    assert |field| < |s|;
    assert s[|field| + 1..] == after[1..];
    assert '"' !in field;
  }

  lemma ParseQuotedLast(text: string)
    ensures forall delim :: ParseLine(Quote(text), delim) == Some([text])
  {
    ParseEscaped(text, "");
    assert Quote(text)[1..] == Escape(text) + "\"" + "";
  }

  lemma ParseQuotedThen(text: string, delim: char, after: string, more: seq<string>)
    requires delim != '"'
    requires |after| > 0 && after[0] == delim && ParseLine(after[1..], delim) == Some(more)
    ensures ParseLine(Quote(text) + after, delim) == Some([text] + more)
  {
    ParseEscaped(text, after);
    assert (Quote(text) + after)[1..] == Escape(text) + "\"" + after;
  }

  /** A line of one written field reads back as its text. */
  lemma ParseCellLast(c: Cell, delim: char)
    requires Readable(c, delim)
    ensures ParseLine(Render(c), delim) == Some([c.text])
  {
    if c.Plain? {
      ParsePlainLast(c.text, delim);
    } else {
      ParseQuotedLast(c.text);
    }
  }

  /** A written field followed by the separator and a readable rest reads back as its
      text in front of the rest's fields. */
  lemma ParseCellThen(c: Cell, delim: char, rest: string, more: seq<string>)
    requires delim != '"' && Readable(c, delim) && ParseLine(rest, delim) == Some(more)
    ensures ParseLine(Render(c) + ([delim] + rest), delim) == Some([c.text] + more)
  {
    assert ([delim] + rest)[1..] == rest;
    if c.Plain? {
      ParsePlainThen(c.text, delim, [delim] + rest, more);
    } else {
      ParseQuotedThen(c.text, delim, [delim] + rest, more);
    }
  }

  lemma RenderLineCons(cells: seq<Cell>, delim: char)
    requires |cells| > 1
    ensures RenderLine(cells, delim) == Render(cells[0]) + ([delim] + RenderLine(cells[1..], delim))
    ensures Texts(cells) == [cells[0].text] + Texts(cells[1..])
  {
    assert Rendered(cells)[1..] == Rendered(cells[1..]);
  }

  /** Reading a written line gives back the texts of its fields, whatever the quoted
      ones contain, as long as the plain ones are readable and the separator is not a
      double quote. */
  lemma {:induction false} ParseRenderedLine(cells: seq<Cell>, delim: char)
    requires delim != '"' && |cells| > 0
    requires forall i :: 0 <= i < |cells| ==> Readable(cells[i], delim)
    ensures ParseLine(RenderLine(cells, delim), delim) == Some(Texts(cells))
    decreases |cells|
  {
    if |cells| == 1 {
      assert RenderLine(cells, delim) == Render(cells[0]);
      assert Texts(cells) == [cells[0].text];
      ParseCellLast(cells[0], delim);
    } else {
      assert Readable(cells[0], delim);
      ParseRenderedLine(cells[1..], delim);
      RenderLineCons(cells, delim);
      ParseCellThen(cells[0], delim, RenderLine(cells[1..], delim), Texts(cells[1..]));
    }
  }

  /** Reading back a record of quoted fields gives the original texts, whatever they
      contain, as long as the separator is not itself a double quote. */
  lemma ParseQuotedRecord(texts: seq<string>, delim: char)
    requires delim != '"'
    ensures ParseRecord(QuotedRecord(texts, delim), delim) == Some(texts)
  {
    if |texts| > 0 {
      var cells := seq(|texts|, i requires 0 <= i < |texts| => Quoted(texts[i]));
      assert Rendered(cells) == QuotedCells(texts);
      assert Texts(cells) == texts;
      ParseRenderedLine(cells, delim);
      assert |QuotedRecord(texts, delim)| > 0 by {
        assert |QuotedCells(texts)[0]| >= 2;
        if |texts| > 1 {
          assert QuotedRecord(texts, delim) == QuotedCells(texts)[0] + [delim] + QuotedRecord(texts[1..], delim) by {
            assert QuotedCells(texts)[1..] == QuotedCells(texts[1..]);
          }
        }
      }
    }
  }
}
