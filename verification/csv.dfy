/** `handleExportCSV` of `App.tsx`: one header line and one line per entry,
    comma-separated, lines joined by `\n`, prefixed with a byte-order mark.
    Only the food-name cell is quoted, with inner quotes doubled as section 2,
    item 7 of RFC 4180 prescribes. The record reader below follows the
    grammar of section 2 of RFC 4180 with its character classes widened, as
    spreadsheets read them: a plain field may hold any character but comma,
    quote, CR and LF, not only the printable ASCII of TEXTDATA. */
module Csv {
  import opened Wrappers
  import opened Types

  /** U+FEFF, written first for spreadsheet UTF-8 detection. */
  const Bom: char := '\U{FEFF}'

  const Header: seq<string> :=
    ["Food Item", "Category", "Serving Size", "Unit", "Calories/Unit", "Total Calories", "Logged At"]

  /** Number-to-text conversions the export leaves to the runtime: `String`
      of a number for the numeric cells, `toLocaleString` of a `Date` for the
      timestamp. */
  datatype Renderers = Renderers(number: real -> string, integer: int -> string, time: int -> string)

  /** `replace(/"/g, '""')`: every quote doubled, everything else kept. */
  function EscapeQuotes(s: string): (r: string)
    ensures |r| >= |s|
    ensures '"' !in s ==> r == s
  {
    if |s| == 0 then []
    else EscapeChar(s[0]) + EscapeQuotes(s[1..])
  }

  /** One character's contribution to the escaped text. */
  function EscapeChar(c: char): string {
    if c == '"' then "\"\"" else [c]
  }

  /** The food-name cell: the escaped name between two quotes. */
  function QuoteCell(s: string): (c: string)
    ensures |c| >= 2 && c[0] == '"' && c[|c| - 1] == '"'
  {
    "\"" + EscapeQuotes(s) + "\""
  }

  /** Reverses the doubling: `None` on a lone quote. */
  function UnescapeQuotes(t: string): (r: Option<string>)
    ensures r.Some? ==> |r.value| <= |t|
  {
    if |t| == 0 then Some([])
    else if t[0] == '"' then
      if |t| >= 2 && t[1] == '"' then
        match UnescapeQuotes(t[2..])
        case None => None
        case Some(s) => Some("\"" + s)
      else None
    else
      match UnescapeQuotes(t[1..])
      case None => None
      case Some(s) => Some([t[0]] + s)
  }

  /** Strips the outer quotes and un-doubles the inner ones. */
  function UnquoteCell(c: string): Option<string> {
    if |c| >= 2 && c[0] == '"' && c[|c| - 1] == '"' then UnescapeQuotes(c[1..|c| - 1])
    else None
  }

  lemma EscapeQuotesCons(c: char, s: string)
    ensures EscapeQuotes([c] + s) == EscapeChar(c) + EscapeQuotes(s)
  {
    assert ([c] + s)[1..] == s;
  }

  /** Un-doubling undoes doubling. */
  lemma {:induction false} UnescapeEscape(s: string)
    ensures UnescapeQuotes(EscapeQuotes(s)) == Some(s)
  {
    if |s| > 0 {
      var c, rest := s[0], s[1..];
      UnescapeEscape(rest);
      assert s == [c] + rest;
      if c == '"' {
        assert EscapeQuotes(s) == "\"\"" + EscapeQuotes(rest);
        assert ("\"\"" + EscapeQuotes(rest))[2..] == EscapeQuotes(rest);
        assert "\"" + rest == s;
      } else {
        assert EscapeQuotes(s) == [c] + EscapeQuotes(rest);
        assert ([c] + EscapeQuotes(rest))[1..] == EscapeQuotes(rest);
      }
    }
  }

  /** Doubling undoes un-doubling: the two are inverse in both directions. */
  lemma {:induction false} EscapeUnescape(t: string)
    requires UnescapeQuotes(t).Some?
    ensures EscapeQuotes(UnescapeQuotes(t).value) == t
  {
    if |t| > 0 {
      var s := UnescapeQuotes(t).value;
      if t[0] == '"' {
        EscapeUnescape(t[2..]);
        EscapeQuotesCons('"', UnescapeQuotes(t[2..]).value);
        assert t == "\"\"" + t[2..];
      } else {
        EscapeUnescape(t[1..]);
        EscapeQuotesCons(t[0], UnescapeQuotes(t[1..]).value);
        assert t == [t[0]] + t[1..];
      }
    }
  }

  /** Removing the outer quotes and un-doubling recovers the food name. */
  lemma UnquoteQuote(s: string)
    ensures UnquoteCell(QuoteCell(s)) == Some(s)
  {
    var c := QuoteCell(s);
    assert c[1..|c| - 1] == EscapeQuotes(s);
    UnescapeEscape(s);
  }

  /** `join(sep)`. */
  function Join(parts: seq<string>, sep: char): string
    decreases |parts|
  {
    if |parts| == 0 then ""
    else if |parts| == 1 then parts[0]
    else parts[0] + [sep] + Join(parts[1..], sep)
  }

  /** The text of each of an entry's seven columns, before any quoting. */
  function RowValues(e: FoodEntry, fmt: Renderers): (vs: seq<string>)
    ensures |vs| == |Header|
    ensures vs[0] == e.foodItem && vs[1] == e.category && vs[3] == e.unit
  {
    [e.foodItem, e.category, fmt.number(e.servingSize), e.unit,
     fmt.number(e.caloriesPerUnit), fmt.integer(e.totalCalories), fmt.time(e.timestamp)]
  }

  /** The cells of one entry's line, as the source builds them: only the
      food name is quoted; every other value is written as it is. */
  function RowCells(e: FoodEntry, fmt: Renderers): (cells: seq<string>)
    ensures |cells| == |Header|
    ensures UnquoteCell(cells[0]) == Some(e.foodItem)
    ensures forall i :: 1 <= i < |cells| ==> cells[i] == RowValues(e, fmt)[i]
  {
    var values := RowValues(e, fmt);
    UnquoteQuote(values[0]);
    [QuoteCell(values[0])] + values[1..]
  }

  /** The cells of every entry, in the entries' order. */
  function Rows(entries: seq<FoodEntry>, fmt: Renderers): (rows: seq<seq<string>>)
    ensures |rows| == |entries|
    ensures forall i :: 0 <= i < |entries| ==> rows[i] == RowCells(entries[i], fmt)
  {
    if |entries| == 0 then [] else [RowCells(entries[0], fmt)] + Rows(entries[1..], fmt)
  }

  /** Each line's text: its cells joined by commas. */
  function LineTexts(lines: seq<seq<string>>): (texts: seq<string>)
    ensures |texts| == |lines|
    ensures forall i :: 0 <= i < |lines| ==> texts[i] == Join(lines[i], ',')
  {
    if |lines| == 0 then [] else [Join(lines[0], ',')] + LineTexts(lines[1..])
  }

  /** The header followed by one line of cells per entry. */
  function CsvLines(entries: seq<FoodEntry>, fmt: Renderers): (lines: seq<seq<string>>)
    ensures |lines| == |entries| + 1
    ensures lines[0] == Header
    ensures forall i :: 0 <= i < |lines| ==> |lines[i]| == |Header|
    ensures forall i :: 0 <= i < |entries| ==> lines[i + 1] == RowCells(entries[i], fmt)
  {
    [Header] + Rows(entries, fmt)
  }

  /** `csvContent`: the mark, then the lines' texts joined by newlines. */
  function ExportCsv(entries: seq<FoodEntry>, fmt: Renderers): (content: string)
    ensures |content| >= 1 && content[0] == Bom
  {
    [Bom] + Join(LineTexts(CsvLines(entries, fmt)), '\n')
  }

  /** Cuts text at every `sep`. */
  function Split(s: string, sep: char): (parts: seq<string>)
    ensures |parts| >= 1
  {
    if |s| == 0 then [""]
    else if s[0] == sep then [""] + Split(s[1..], sep)
    else var rest := Split(s[1..], sep); [[s[0]] + rest[0]] + rest[1..]
  }

  /** Cutting at a separator that the first part lacks peels off that part. */
  lemma {:induction false} SplitAfter(a: string, sep: char, b: string)
    requires sep !in a
    ensures Split(a + [sep] + b, sep) == [a] + Split(b, sep)
  {
    if |a| == 0 {
      assert a + [sep] + b == [sep] + b;
      assert ([sep] + b)[1..] == b;
    } else {
      assert (a + [sep] + b)[1..] == a[1..] + [sep] + b;
      SplitAfter(a[1..], sep, b);
      assert [a[0]] + a[1..] == a;
    }
  }

  /** A part without `sep` splits to itself. */
  lemma {:induction false} SplitPlain(a: string, sep: char)
    requires sep !in a
    ensures Split(a, sep) == [a]
  {
    if |a| > 0 {
      SplitPlain(a[1..], sep);
      assert [a[0]] + a[1..] == a;
    }
  }

  /** Splitting undoes joining when no part contains the separator. */
  lemma {:induction false} SplitJoin(parts: seq<string>, sep: char)
    requires |parts| >= 1
    requires forall i :: 0 <= i < |parts| ==> sep !in parts[i]
    ensures Split(Join(parts, sep), sep) == parts
    decreases |parts|
  {
    if |parts| == 1 {
      SplitPlain(parts[0], sep);
    } else {
      SplitJoin(parts[1..], sep);
      SplitAfter(parts[0], sep, Join(parts[1..], sep));
      assert parts == [parts[0]] + parts[1..];
    }
  }

  lemma {:induction false} JoinAvoids(parts: seq<string>, sep: char, c: char)
    requires c != sep
    requires forall i :: 0 <= i < |parts| ==> c !in parts[i]
    ensures c !in Join(parts, sep)
    decreases |parts|
  {
    if |parts| > 1 {
      JoinAvoids(parts[1..], sep, c);
    }
  }

  lemma NoLineBreakInLine(cells: seq<string>)
    requires forall j :: 0 <= j < |cells| ==> '\n' !in cells[j]
    ensures '\n' !in Join(cells, ',')
  {
    JoinAvoids(cells, ',', '\n');
  }

  /** When no cell holds a line break, cutting the content after the mark at
      each newline yields the header line and then one line per entry, in
      order. */
  lemma ExportCsvLines(entries: seq<FoodEntry>, fmt: Renderers)
    requires forall i, j :: 0 <= i < |entries| && 0 <= j < |Header| ==> '\n' !in RowCells(entries[i], fmt)[j]
    ensures var lines := Split(ExportCsv(entries, fmt)[1..], '\n');
      && |lines| == |entries| + 1
      && lines[0] == Join(Header, ',')
      && forall i :: 0 <= i < |entries| ==> lines[i + 1] == Join(RowCells(entries[i], fmt), ',')
  {
    var cl := CsvLines(entries, fmt);
    var texts := LineTexts(cl);
    HeaderPlain();
    forall k | 0 <= k < |texts|
      ensures '\n' !in texts[k]
    {
      NoLineBreakInLine(cl[k]);
    }
    SplitJoin(texts, '\n');
    assert ExportCsv(entries, fmt)[1..] == Join(texts, '\n');
  }

  // ---------------------------------------------------------------------
  // Reading one record back, after the grammar of section 2 of RFC 4180,
  // with any character but comma, quote, CR and LF allowed in a plain field.
  // ---------------------------------------------------------------------

  /** Text that may stand as a field without quotes. */
  predicate Plain(v: string) {
    forall i :: 0 <= i < |v| ==> v[i] != ',' && v[i] != '"' && v[i] != '\r' && v[i] != '\n'
  }

  /** Text that may follow a field: nothing, or the next comma. */
  predicate FieldEnd(rest: string) {
    |rest| == 0 || rest[0] == ','
  }

  /** The inside of a quoted field, after its opening quote: returns the
      value and what follows the closing quote. */
  function ReadQuoted(s: string): (r: Option<(string, string)>)
    ensures r.Some? ==> |r.value.1| < |s|
  {
    if |s| == 0 then None
    else if s[0] == '"' then
      if |s| >= 2 && s[1] == '"' then
        match ReadQuoted(s[2..])
        case None => None
        case Some(p) => Some(("\"" + p.0, p.1))
      else Some(("", s[1..]))
    else
      match ReadQuoted(s[1..])
      case None => None
      case Some(p) => Some(([s[0]] + p.0, p.1))
  }

  /** An unquoted field: everything up to the next comma. */
  function ReadPlain(s: string): (r: (string, string))
    ensures FieldEnd(r.1)
    ensures |r.0| + |r.1| == |s|
  {
    if |s| == 0 || s[0] == ',' then ("", s)
    else var p := ReadPlain(s[1..]); ([s[0]] + p.0, p.1)
  }

  /** One field and what follows it; `None` when the text breaks the grammar. */
  function ReadField(s: string): (r: Option<(string, string)>)
    ensures r.Some? ==> |r.value.1| <= |s| && FieldEnd(r.value.1)
  {
    if |s| > 0 && s[0] == '"' then
      match ReadQuoted(s[1..])
      case None => None
      case Some(p) => if FieldEnd(p.1) then Some(p) else None
    else
      var p := ReadPlain(s);
      if Plain(p.0) then Some(p) else None
  }

  /** The field values of one record. */
  function ReadRecord(s: string): (r: Option<seq<string>>)
    ensures r.Some? ==> |r.value| >= 1
    decreases |s|
  {
    match ReadField(s)
    case None => None
    case Some(p) =>
      if |p.1| == 0 then Some([p.0])
      else match ReadRecord(p.1[1..])
        case None => None
        case Some(vs) => Some([p.0] + vs)
  }

  /** A doubled quote inside a quoted field reads as one quote. */
  lemma ReadQuotedDoubled(rest: string, value: string, after: string)
    requires ReadQuoted(rest) == Some((value, after))
    ensures ReadQuoted("\"\"" + rest) == Some(("\"" + value, after))
  {
    assert ("\"\"" + rest)[2..] == rest;
  }

  /** Any other character inside a quoted field reads as itself. */
  lemma ReadQuotedOrdinary(c: char, rest: string, value: string, after: string)
    requires c != '"'
    requires ReadQuoted(rest) == Some((value, after))
    ensures ReadQuoted([c] + rest) == Some(([c] + value, after))
  {
    assert ([c] + rest)[1..] == rest;
  }

  /** The closing quote ends a quoted field when a field end follows. */
  lemma ReadQuotedClosing(tail: string)
    requires FieldEnd(tail)
    ensures ReadQuoted("\"" + tail) == Some(("", tail))
  {
    assert ("\"" + tail)[1..] == tail;
  }

  lemma ConcatAssoc(a: string, b: string, c: string, d: string)
    ensures (a + b) + c + d == a + (b + c + d)
  {
  }

  /** The escaped text of a non-empty value, split after its first character. */
  lemma EscapedStep(v: string, tail: string)
    requires |v| > 0
    ensures EscapeQuotes(v) + "\"" + tail == EscapeChar(v[0]) + (EscapeQuotes(v[1..]) + "\"" + tail)
  {
    ConcatAssoc(EscapeChar(v[0]), EscapeQuotes(v[1..]), "\"", tail);
  }

  /** A quoted field's inside reads back as the original value. */
  lemma {:induction false} ReadQuotedEscaped(v: string, tail: string)
    requires FieldEnd(tail)
    ensures ReadQuoted(EscapeQuotes(v) + "\"" + tail) == Some((v, tail))
  {
    if |v| == 0 {
      assert EscapeQuotes(v) + "\"" + tail == "\"" + tail;
      ReadQuotedClosing(tail);
    } else {
      var inner := EscapeQuotes(v[1..]) + "\"" + tail;
      ReadQuotedEscaped(v[1..], tail);
      EscapedStep(v, tail);
      assert v == [v[0]] + v[1..];
      if v[0] == '"' {
        assert EscapeChar(v[0]) == "\"\"";
        ReadQuotedDoubled(inner, v[1..], tail);
        assert "\"" + v[1..] == v;
      } else {
        assert EscapeChar(v[0]) == [v[0]];
        ReadQuotedOrdinary(v[0], inner, v[1..], tail);
      }
    }
  }

  lemma {:induction false} ReadPlainOf(v: string, tail: string)
    requires Plain(v) && FieldEnd(tail)
    ensures ReadPlain(v + tail) == (v, tail)
  {
    if |v| > 0 {
      assert (v + tail)[1..] == v[1..] + tail;
      ReadPlainOf(v[1..], tail);
      assert v == [v[0]] + v[1..];
    } else {
      assert v + tail == tail;
    }
  }

  /** `cell` is a correct encoding of `value`: quoted, or plain as it is. */
  predicate Encodes(cell: string, value: string) {
    cell == QuoteCell(value) || (cell == value && Plain(value))
  }

  lemma ReadFieldEncoded(cell: string, value: string, tail: string)
    requires Encodes(cell, value) && FieldEnd(tail)
    ensures ReadField(cell + tail) == Some((value, tail))
  {
    if cell == QuoteCell(value) {
      assert (cell + tail)[1..] == EscapeQuotes(value) + "\"" + tail;
      ReadQuotedEscaped(value, tail);
    } else {
      ReadPlainOf(value, tail);
      if |value| > 0 {
        assert value[0] != '"';
      } else {
        assert cell + tail == tail;
      }
    }
  }

  /** A joined line of two or more cells: the first cell, a comma, the rest. */
  lemma JoinCons(cells: seq<string>, sep: char)
    requires |cells| >= 2
    ensures Join(cells, sep) == cells[0] + ([sep] + Join(cells[1..], sep))
  {
    ConcatAssoc(cells[0], [sep], Join(cells[1..], sep), "");
    assert Join(cells[1..], sep) + "" == Join(cells[1..], sep);
    assert [sep] + Join(cells[1..], sep) + "" == [sep] + Join(cells[1..], sep);
  }

  /** Cell-by-cell encoding of a list. */
  predicate AllEncode(cells: seq<string>, values: seq<string>)
    requires |cells| == |values|
  {
    forall i :: 0 <= i < |cells| ==> Encodes(cells[i], values[i])
  }

  lemma AllEncodeTail(cells: seq<string>, values: seq<string>)
    requires |cells| == |values| >= 1 && AllEncode(cells, values)
    ensures AllEncode(cells[1..], values[1..]) && Encodes(cells[0], values[0])
  {
    forall i | 0 <= i < |cells| - 1
      ensures Encodes(cells[1..][i], values[1..][i])
    {
      assert cells[1..][i] == cells[i + 1] && values[1..][i] == values[i + 1];
    }
  }

  /** The first field of a record followed by more fields. */
  lemma ReadRecordCons(cell: string, value: string, rest: string, values: seq<string>)
    requires Encodes(cell, value)
    requires ReadRecord(rest) == Some(values)
    ensures ReadRecord(cell + ([','] + rest)) == Some([value] + values)
  {
    ReadFieldEncoded(cell, value, [','] + rest);
    assert ([','] + rest)[1..] == rest;
  }

  /** A line of correctly encoded cells reads back as exactly their values. */
  lemma {:induction false} ReadRecordJoin(cells: seq<string>, values: seq<string>)
    requires |cells| == |values| >= 1
    requires AllEncode(cells, values)
    ensures ReadRecord(Join(cells, ',')) == Some(values)
    decreases |cells|
  {
    AllEncodeTail(cells, values);
    if |cells| == 1 {
      assert cells[0] + "" == cells[0];
      ReadFieldEncoded(cells[0], values[0], "");
      assert values == [values[0]];
    } else {
      ReadRecordJoin(cells[1..], values[1..]);
      JoinCons(cells, ',');
      ReadRecordCons(cells[0], values[0], Join(cells[1..], ','), values[1..]);
      assert values == [values[0]] + values[1..];
    }
  }

  /** The column names need no quoting. */
  lemma HeaderPlain()
    ensures forall i :: 0 <= i < |Header| ==> Plain(Header[i])
  {
    assert Plain(Header[0]) && Plain(Header[1]) && Plain(Header[2]) && Plain(Header[3]);
    assert Plain(Header[4]) && Plain(Header[5]) && Plain(Header[6]);
  }

  /** The header line reads back as the seven column names. */
  lemma HeaderReadsBack()
    ensures ReadRecord(Join(Header, ',')) == Some(Header)
  {
    HeaderPlain();
    ReadRecordJoin(Header, Header);
  }

  /** Only the first cell quoted: the source's layout encodes its values
      when all the others are plain. */
  lemma EncodeFirstQuoted(values: seq<string>)
    requires |values| >= 1
    requires forall i :: 1 <= i < |values| ==> Plain(values[i])
    ensures AllEncode([QuoteCell(values[0])] + values[1..], values)
  {
    var cells := [QuoteCell(values[0])] + values[1..];
    forall i | 0 <= i < |values|
      ensures Encodes(cells[i], values[i])
    {
      if i > 0 {
        assert cells[i] == values[i];
      }
    }
  }

  /** The corrected layout, with every text cell quoted, encodes its values
      when the numeric ones are plain. */
  lemma EncodeQuotedTextCells(name: string, category: string, size: string, unit: string,
                              rate: string, total: string, time: string)
    requires Plain(size) && Plain(rate) && Plain(total)
    ensures AllEncode([QuoteCell(name), QuoteCell(category), size, QuoteCell(unit), rate, total, QuoteCell(time)],
                      [name, category, size, unit, rate, total, time])
  {
  }

  /** As written: when every unquoted cell happens to be plain, an entry's
      line reads back as its seven values, whatever its food name holds. */
  lemma AsWrittenRowReadsBack(e: FoodEntry, fmt: Renderers)
    requires Plain(e.category) && Plain(e.unit)
    requires Plain(fmt.number(e.servingSize)) && Plain(fmt.number(e.caloriesPerUnit))
    requires Plain(fmt.integer(e.totalCalories)) && Plain(fmt.time(e.timestamp))
    ensures ReadRecord(Join(RowCells(e, fmt), ',')) == Some(RowValues(e, fmt))
  {
    var values := RowValues(e, fmt);
    assert forall i :: 1 <= i < |values| ==> Plain(values[i]);
    EncodeFirstQuoted(values);
    ReadRecordJoin(RowCells(e, fmt), values);
  }

  /** Cutting the last cell of a line at a separator it contains gives the
      same text as that line with the last cell split in two. */
  lemma {:induction false} JoinSplitLast(cells: seq<string>, a: string, b: string, sep: char)
    requires |cells| >= 1 && cells[|cells| - 1] == a + [sep] + b
    ensures Join(cells, sep) == Join(cells[..|cells| - 1] + [a, b], sep)
    decreases |cells|
  {
    var n := |cells|;
    var longer := cells[..n - 1] + [a, b];
    if n == 1 {
      assert longer == [a, b];
      assert Join([a, b], sep) == a + [sep] + Join([b], sep);
    } else {
      JoinSplitLast(cells[1..], a, b, sep);
      assert longer[0] == cells[0];
      assert longer[1..] == cells[1..][..n - 2] + [a, b];
    }
  }

  /** Splitting the last value commutes with quoting the first. */
  lemma QuoteFirstThenSplit(values: seq<string>, a: string, b: string)
    requires |values| >= 2
    ensures var n := |values|;
      ([QuoteCell(values[0])] + values[1..])[..n - 1] + [a, b]
      == [QuoteCell(values[0])] + (values[..n - 1] + [a, b])[1..]
  {
  }

  lemma PlainAfterSplit(values: seq<string>, a: string, b: string)
    requires |values| >= 2 && Plain(a) && Plain(b)
    requires forall i :: 1 <= i < |values| - 1 ==> Plain(values[i])
    ensures var split := values[..|values| - 1] + [a, b];
      forall i :: 1 <= i < |split| ==> Plain(split[i])
  {
  }

  /** A line whose first value is quoted and whose last, unquoted value
      holds a comma reads back with that last value cut in two. */
  lemma {:induction false} LastValueSplits(values: seq<string>, a: string, b: string)
    requires |values| >= 2 && Plain(a) && Plain(b)
    requires forall i :: 1 <= i < |values| - 1 ==> Plain(values[i])
    requires values[|values| - 1] == a + "," + b
    ensures ReadRecord(Join([QuoteCell(values[0])] + values[1..], ','))
         == Some(values[..|values| - 1] + [a, b])
  {
    var cells := [QuoteCell(values[0])] + values[1..];
    var split := values[..|values| - 1] + [a, b];
    JoinSplitLast(cells, a, b, ',');
    QuoteFirstThenSplit(values, a, b);
    PlainAfterSplit(values, a, b);
    EncodeFirstQuoted(split);
    ReadRecordJoin([QuoteCell(split[0])] + split[1..], split);
  }

  /** As written: a localised timestamp of the form `date, time` (what
      `toLocaleString` produces in most locales) is cut in two, so the line
      reads back as eight fields under a seven-column header. */
  lemma AsWrittenRowSplitsTimestamp(e: FoodEntry, fmt: Renderers, date: string, clock: string)
    requires Plain(e.category) && Plain(e.unit)
    requires Plain(fmt.number(e.servingSize)) && Plain(fmt.number(e.caloriesPerUnit))
    requires Plain(fmt.integer(e.totalCalories))
    requires Plain(date) && Plain(clock)
    requires fmt.time(e.timestamp) == date + "," + clock
    ensures ReadRecord(Join(RowCells(e, fmt), ',')) == Some(RowValues(e, fmt)[..6] + [date, clock])
    ensures |ReadRecord(Join(RowCells(e, fmt), ',')).value| == |Header| + 1
  {
    var values := RowValues(e, fmt);
    assert forall i :: 1 <= i < |values| - 1 ==> Plain(values[i]);
    LastValueSplits(values, date, clock);
  }

  /** Corrected: every text cell quoted, the numeric cells as they are. */
  function RowCellsQuoted(e: FoodEntry, fmt: Renderers): (cells: seq<string>)
    ensures |cells| == |Header|
  {
    [QuoteCell(e.foodItem), QuoteCell(e.category), fmt.number(e.servingSize), QuoteCell(e.unit),
     fmt.number(e.caloriesPerUnit), fmt.integer(e.totalCalories), QuoteCell(fmt.time(e.timestamp))]
  }

  /** Corrected: as long as numbers render without commas, quotes or line
      breaks, every entry's line reads back as exactly its seven values,
      whatever its text fields and timestamp hold. */
  lemma QuotedRowReadsBack(e: FoodEntry, fmt: Renderers)
    requires Plain(fmt.number(e.servingSize)) && Plain(fmt.number(e.caloriesPerUnit))
    requires Plain(fmt.integer(e.totalCalories))
    ensures ReadRecord(Join(RowCellsQuoted(e, fmt), ',')) == Some(RowValues(e, fmt))
  {
    var name, size, rate, total, time :=
      e.foodItem, fmt.number(e.servingSize), fmt.number(e.caloriesPerUnit),
      fmt.integer(e.totalCalories), fmt.time(e.timestamp);
    EncodeQuotedTextCells(name, e.category, size, e.unit, rate, total, time);
    ReadRecordJoin(RowCellsQuoted(e, fmt), RowValues(e, fmt));
  }

  /** Corrected export: the same layout with every text cell quoted. */
  function ExportCsvQuoted(entries: seq<FoodEntry>, fmt: Renderers): (content: string)
    ensures |content| >= 1 && content[0] == Bom
  {
    [Bom] + Join(LineTexts([Header] + QuotedRows(entries, fmt)), '\n')
  }

  function QuotedRows(entries: seq<FoodEntry>, fmt: Renderers): (rows: seq<seq<string>>)
    ensures |rows| == |entries|
    ensures forall i :: 0 <= i < |entries| ==> rows[i] == RowCellsQuoted(entries[i], fmt)
  {
    if |entries| == 0 then [] else [RowCellsQuoted(entries[0], fmt)] + QuotedRows(entries[1..], fmt)
  }
}
