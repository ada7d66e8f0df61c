/**
 * CSV out of apps/web/app/api/export/route.ts and into apps/web/app/api/import/route.ts, and the
 * splitter of apps/worker/src/workers/import.worker.ts beside the quote-aware scanner.
 */
module Csv {
  import opened JsText

  const COMMA: char := ','
  const QUOTE: char := '"'

  // ---------------------------------------------------------------- export

  /** val.replace(/"/g, '""') */
  function Doubled(s: string): string {
    if s == "" then ""
    else (if s[0] == QUOTE then [QUOTE, QUOTE] else [s[0]]) + Doubled(s[1..])
  }

  function Cell(v: string): string {
    if COMMA in v || QUOTE in v then [QUOTE] + Doubled(v) + [QUOTE] else v
  }

  function Cells(fields: seq<string>): (r: seq<string>)
    ensures |r| == |fields|
  {
    if fields == [] then [] else [Cell(fields[0])] + Cells(fields[1..])
  }

  function Row(fields: seq<string>): string { Join(Cells(fields), [COMMA]) }

  // ---------------------------------------------------------------- the scanner

  /** What the scanner still produces from the rest of a line. */
  function Scan(s: string, current: string, inQuotes: bool): (values: seq<string>)
    ensures values != []
    decreases |s|
  {
    if s == "" then [Trim(current)]
    else if s[0] == QUOTE then
      if inQuotes && |s| > 1 && s[1] == QUOTE then Scan(s[2..], current + [QUOTE], inQuotes)
      else Scan(s[1..], current, !inQuotes)
    else if s[0] == COMMA && !inQuotes then [Trim(current)] + Scan(s[1..], "", inQuotes)
    else Scan(s[1..], current + [s[0]], inQuotes)
  }

  function ParseLine(line: string): seq<string> { Scan(line, "", false) }

  method ParseCsvLine(line: string) returns (values: seq<string>)
    ensures values == ParseLine(line)
  {
    hide Trim;
    values := [];
    var current := "";
    var inQuotes := false;
    var i := 0;
    while i < |line|
      invariant 0 <= i <= |line|
      invariant values + Scan(line[i..], current, inQuotes) == ParseLine(line)
    {
      var c := line[i];
      ghost var rest := line[i..];
      assert rest[1..] == line[i + 1..];
      if c == QUOTE {
        if inQuotes && i + 1 < |line| && line[i + 1] == QUOTE {
          assert rest[2..] == line[i + 2..];
          current := current + [QUOTE];
          i := i + 1;
        } else {
          inQuotes := !inQuotes;
        }
      } else if c == COMMA && !inQuotes {
        values := values + [Trim(current)];
        current := "";
      } else {
        current := current + [c];
      }
      i := i + 1;
    }
    assert line[i..] == "";
    values := values + [Trim(current)];
  }

  // ---------------------------------------------------------------- round trip of a line

  function TrimAll(fields: seq<string>): (r: seq<string>)
    ensures |r| == |fields| && forall i :: 0 <= i < |fields| ==> r[i] == Trim(fields[i])
  {
    if fields == [] then [] else [Trim(fields[0])] + TrimAll(fields[1..])
  }

  lemma {:induction false} ScanPlain(v: string, rest: string, current: string)
    requires COMMA !in v && QUOTE !in v
    ensures Scan(v + rest, current, false) == Scan(rest, current + v, false)
    decreases |v|
  {
    hide Trim;
    if v == "" {
      assert v + rest == rest && current + v == current;
    } else {
      assert v[0] in v;
      assert (v + rest)[1..] == v[1..] + rest;
      assert (current + [v[0]]) + v[1..] == current + v;
      ScanPlain(v[1..], rest, current + [v[0]]);
    }
  }

  lemma ScanEscaped(more: string, current: string)
    ensures Scan([QUOTE, QUOTE] + more, current, true) == Scan(more, current + [QUOTE], true)
  {
    hide Trim;
    assert ([QUOTE, QUOTE] + more)[2..] == more;
  }

  lemma ScanOther(c: char, more: string, current: string)
    requires c != QUOTE
    ensures Scan([c] + more, current, true) == Scan(more, current + [c], true)
  {
    hide Trim;
    assert ([c] + more)[1..] == more;
  }

  lemma ScanClosing(rest: string, current: string)
    requires rest == "" || rest[0] != QUOTE
    ensures Scan([QUOTE] + rest, current, true) == Scan(rest, current, false)
  {
    hide Trim;
    assert ([QUOTE] + rest)[1..] == rest;
  }

  /** Inside quotes the doubled text comes back, up to a closing quote that no other quote follows. */
  lemma {:induction false} ScanQuoted(v: string, rest: string, current: string)
    requires rest == "" || rest[0] != QUOTE
    ensures Scan(Doubled(v) + ([QUOTE] + rest), current, true) == Scan(rest, current + v, false)
    decreases |v|
  {
    hide Scan;
    var tail := [QUOTE] + rest;
    if v == "" {
      assert Doubled(v) + tail == tail && current + v == current;
      ScanClosing(rest, current);
    } else {
      var more := Doubled(v[1..]) + tail;
      assert (current + [v[0]]) + v[1..] == current + v;
      ScanQuoted(v[1..], rest, current + [v[0]]);
      if v[0] == QUOTE {
        assert Doubled(v) + tail == [QUOTE, QUOTE] + more;
        ScanEscaped(more, current);
      } else {
        assert Doubled(v) + tail == [v[0]] + more;
        ScanOther(v[0], more, current);
      }
    }
  }

  lemma ScanCell(v: string, rest: string)
    requires rest == "" || rest[0] == COMMA
    ensures Scan(Cell(v) + rest, "", false) == Scan(rest, v, false)
  {
    hide Trim, Doubled;
    assert "" + v == v;
    if COMMA in v || QUOTE in v {
      var inside := Doubled(v) + ([QUOTE] + rest);
      assert Cell(v) + rest == [QUOTE] + inside;
      assert ([QUOTE] + inside)[1..] == inside;
      ScanQuoted(v, rest, "");
    } else {
      ScanPlain(v, rest, "");
    }
  }

  /** Exported rows parse back to their fields, trimmed: commas, quotes and all. */
  lemma {:induction false} RowRoundTrip(fields: seq<string>)
    requires fields != []
    ensures ParseLine(Row(fields)) == TrimAll(fields)
  {
    hide Trim, Cell;
    var cells := Cells(fields);
    if |fields| == 1 {
      assert cells == [Cell(fields[0])];
      assert Row(fields) == Cell(fields[0]) + "";
      ScanCell(fields[0], "");
      assert TrimAll(fields) == [Trim(fields[0])];
    } else {
      var rest := [COMMA] + Row(fields[1..]);
      assert cells[1..] == Cells(fields[1..]);
      assert Row(fields) == Cell(fields[0]) + rest;
      ScanCell(fields[0], rest);
      assert rest[1..] == Row(fields[1..]);
      RowRoundTrip(fields[1..]);
    }
  }

  /** The round trip is exact exactly for fields without blanks at their ends. */
  lemma RowRoundTripExact(fields: seq<string>)
    requires fields != []
    ensures ParseLine(Row(fields)) == fields <==> forall f :: f in fields ==> Trim(f) == f
  {
    hide Trim, Row, ParseLine;
    RowRoundTrip(fields);
    var t := TrimAll(fields);
    if t == fields {
      forall f | f in fields ensures Trim(f) == f {
        var i :| 0 <= i < |fields| && fields[i] == f;
        assert t[i] == Trim(fields[i]);
      }
    } else if forall f :: f in fields ==> Trim(f) == f {
      assert forall i :: 0 <= i < |fields| ==> t[i] == fields[i];
    }
  }

  // ---------------------------------------------------------------- the two formats, character by character

  /** Every quote of a text is written twice, and every other character once. */
  lemma {:induction false} DoubledIs(a: string, b: string)
    ensures Doubled(a + b) == Doubled(a) + Doubled(b)
  {
    if a == "" {
      assert a + b == b;
    } else {
      assert (a + b)[1..] == a[1..] + b;
      DoubledIs(a[1..], b);
    }
  }

  lemma DoubledOne(c: char)
    ensures Doubled("") == "" && Doubled([c]) == if c == '"' then "\"\"" else [c]
  {
    assert [c][1..] == "";
  }

  /** What is exported: a field with a comma or a quote goes between quotes, and commas separate the fields. */
  lemma RowIs(field: string, more: seq<string>)
    ensures Cell(field) == if ',' in field || '"' in field then "\"" + Doubled(field) + "\"" else field
    ensures Row([field]) == Cell(field) && (more != [] ==> Row([field] + more) == Cell(field) + "," + Row(more))
  {
    hide Doubled;
    assert Cells([field]) == [Cell(field)] + Cells([]);
    if more != [] {
      assert ([field] + more)[1..] == more;
      assert Cells([field] + more) == [Cell(field)] + Cells(more);
    }
  }

  /**
   * How any line is read: text up to the next comma or quote; a comma that ends a field; a quoted run, whose doubled
   * quotes are single ones, anywhere in a field; a quoted run that is never closed; and the end of the line.
   */
  lemma LineIsRead(text: string, rest: string, current: string)
    ensures Scan("", current, false) == [Trim(current)]
    ensures ',' !in text && '"' !in text ==> Scan(text + rest, current, false) == Scan(rest, current + text, false)
    ensures Scan("," + rest, current, false) == [Trim(current)] + Scan(rest, "", false)
    ensures rest == "" || rest[0] != '"' ==>
      Scan("\"" + Doubled(text) + "\"" + rest, current, false) == Scan(rest, current + text, false)
    ensures Scan("\"" + Doubled(text), current, false) == [Trim(current + text)]
  {
    hide Trim;
    if ',' !in text && '"' !in text { ScanPlain(text, rest, current); }
    assert ("," + rest)[1..] == rest;
    if rest == "" || rest[0] != '"' {
      var inside := Doubled(text) + ([QUOTE] + rest);
      assert "\"" + Doubled(text) + "\"" + rest == [QUOTE] + inside;
      assert ([QUOTE] + inside)[1..] == inside;
      OpenQuote(inside, current);
      ScanQuoted(text, rest, current);
    }
    assert ("\"" + Doubled(text))[1..] == Doubled(text);
    OpenQuote(Doubled(text), current);
    ScanUnclosed(text, current);
  }

  lemma OpenQuote(inside: string, current: string)
    ensures Scan([QUOTE] + inside, current, false) == Scan(inside, current, true)
  {
    hide Trim;
    assert ([QUOTE] + inside)[1..] == inside;
  }

  lemma {:induction false} ScanUnclosed(v: string, current: string)
    ensures Scan(Doubled(v), current, true) == [Trim(current + v)]
    decreases |v|
  {
    hide Scan, Trim;
    if v == "" {
      assert current + v == current;
      NothingToScan(current);
    } else {
      var more := Doubled(v[1..]);
      assert (current + [v[0]]) + v[1..] == current + v;
      ScanUnclosed(v[1..], current + [v[0]]);
      if v[0] == QUOTE {
        assert Doubled(v) == [QUOTE, QUOTE] + more;
        ScanEscaped(more, current);
      } else {
        assert Doubled(v) == [v[0]] + more;
        ScanOther(v[0], more, current);
      }
    }
  }

  lemma NothingToScan(current: string)
    ensures Scan("", current, true) == [Trim(current)]
  {
  }

  // ---------------------------------------------------------------- the worker's splitter

  /** line.split(',').map(trim) */
  function NaiveLine(line: string): seq<string> { TrimAll(Split(line, COMMA)) }

  lemma {:induction false} ScanWithoutQuotes(s: string, current: string)
    requires QUOTE !in s
    ensures var parts := Split(s, COMMA);
      Scan(s, current, false) == [Trim(current + parts[0])] + TrimAll(parts[1..])
    decreases |s|
  {
    hide Trim;
    if s == "" {
      assert current + "" == current;
    } else {
      assert s[0] in s;
      var rest := Split(s[1..], COMMA);
      if s[0] == COMMA {
        ScanWithoutQuotes(s[1..], "");
        assert "" + rest[0] == rest[0] && current + "" == current;
        assert Split(s, COMMA)[1..] == rest;
      } else {
        ScanWithoutQuotes(s[1..], current + [s[0]]);
        assert (current + [s[0]]) + rest[0] == current + ([s[0]] + rest[0]);
        assert Split(s, COMMA)[1..] == rest[1..];
      }
    }
  }

  function Quotes(s: string): nat {
    if s == "" then 0 else (if s[0] == QUOTE then 1 else 0) + Quotes(s[1..])
  }

  function QuotesIn(parts: seq<string>): nat {
    if parts == [] then 0 else Quotes(parts[0]) + QuotesIn(parts[1..])
  }

  lemma {:induction false} QuotesConcat(a: string, b: string)
    ensures Quotes(a + b) == Quotes(a) + Quotes(b)
  {
    if a == "" {
      assert a + b == b;
    } else {
      assert (a + b)[1..] == a[1..] + b;
      QuotesConcat(a[1..], b);
    }
  }

  lemma {:induction false} TrimStartKeepsQuotes(s: string)
    ensures Quotes(TrimStart(s)) == Quotes(s)
  {
    if s != "" && IsSpace(s[0]) { TrimStartKeepsQuotes(s[1..]); }
  }

  lemma {:induction false} TrimEndKeepsQuotes(s: string)
    ensures Quotes(TrimEnd(s)) == Quotes(s)
  {
    if s != "" && IsSpace(s[|s| - 1]) {
      TrimEndKeepsQuotes(s[..|s| - 1]);
      assert s == s[..|s| - 1] + [s[|s| - 1]];
      QuotesConcat(s[..|s| - 1], [s[|s| - 1]]);
      assert Quotes([s[|s| - 1]]) == 0;
    }
  }

  lemma TrimKeepsQuotes(s: string)
    ensures Quotes(Trim(s)) == Quotes(s)
  {
    TrimStartKeepsQuotes(s);
    TrimEndKeepsQuotes(TrimStart(s));
  }

  /** The scanner uses up at least one quote of any line that has one. */
  lemma {:induction false} ScanLosesQuotes(s: string, current: string, inQuotes: bool)
    ensures QuotesIn(Scan(s, current, inQuotes)) <= Quotes(current) + Quotes(s)
    ensures QUOTE in s ==> QuotesIn(Scan(s, current, inQuotes)) < Quotes(current) + Quotes(s)
    decreases |s|
  {
    hide Trim;
    TrimKeepsQuotes(current);
    if s != "" {
      assert s == [s[0]] + s[1..];
      if s[0] == QUOTE {
        if inQuotes && |s| > 1 && s[1] == QUOTE {
          QuotesConcat(current, [QUOTE]);
          assert s[1..][1..] == s[2..];
          ScanLosesQuotes(s[2..], current + [QUOTE], inQuotes);
        } else {
          ScanLosesQuotes(s[1..], current, !inQuotes);
        }
      } else if s[0] == COMMA && !inQuotes {
        ScanLosesQuotes(s[1..], "", inQuotes);
      } else {
        QuotesConcat(current, [s[0]]);
        ScanLosesQuotes(s[1..], current + [s[0]], inQuotes);
      }
    }
  }

  lemma {:induction false} SplitKeepsQuotes(s: string)
    ensures QuotesIn(Split(s, COMMA)) == Quotes(s)
  {
    if s != "" {
      var rest := Split(s[1..], COMMA);
      SplitKeepsQuotes(s[1..]);
      if s[0] != COMMA {
        QuotesConcat([s[0]], rest[0]);
        assert Quotes([s[0]]) == (if s[0] == QUOTE then 1 else 0);
        assert Split(s, COMMA)[1..] == rest[1..];
      } else {
        assert Split(s, COMMA)[1..] == rest;
      }
    }
  }

  lemma {:induction false} TrimAllKeepsQuotes(parts: seq<string>)
    ensures QuotesIn(TrimAll(parts)) == QuotesIn(parts)
  {
    hide Trim;
    if parts != [] {
      TrimKeepsQuotes(parts[0]);
      TrimAllKeepsQuotes(parts[1..]);
    }
  }

  /** The two importers read a line alike exactly when the line has no quote character. */
  lemma ImportersAgree(line: string)
    ensures ParseLine(line) == NaiveLine(line) <==> QUOTE !in line
  {
    hide Trim, Scan, Split, TrimAll;
    if QUOTE in line {
      ScanLosesQuotes(line, "", false);
      SplitKeepsQuotes(line);
      TrimAllKeepsQuotes(Split(line, COMMA));
    } else {
      ScanWithoutQuotes(line, "");
      var parts := Split(line, COMMA);
      assert "" + parts[0] == parts[0];
      TrimAllHead(parts);
    }
  }

  lemma TrimAllHead(parts: seq<string>)
    requires parts != []
    ensures TrimAll(parts) == [Trim(parts[0])] + TrimAll(parts[1..])
  {
  }
}
