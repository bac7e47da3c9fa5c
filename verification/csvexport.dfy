/**
 * The CSV serialiser of `src/components/ui/ExportCsvButton.jsx`: every cell is quoted with inner
 * quotes doubled, cells are joined by `,`, lines by `\n`, and the text starts with a byte-order
 * mark. A reader for exactly that format is defined beside it, and the two are proved inverse.
 *
 * A cell is the value's text (`String(value)`) or `None` for `null`/`undefined`.
 */
module CsvExport {
  import opened Wrappers
  import opened JsText

  const Quote: char := '"'
  const Bom: char := '\U{FEFF}'

  /** The number of occurrences of `c` in `s`. */
  function Occurrences(s: string, c: char): (n: nat)
    ensures n <= |s|
  {
    if s == [] then 0 else (if s[0] == c then 1 else 0) + Occurrences(s[1..], c)
  }

  lemma {:induction false} OccurrencesAppend(a: string, b: string, c: char)
    ensures Occurrences(a + b, c) == Occurrences(a, c) + Occurrences(b, c)
  {
    if a == [] {
      assert a + b == b;
    } else {
      assert (a + b)[1..] == a[1..] + b;
      OccurrencesAppend(a[1..], b, c);
    }
  }

  /** `s.replace(/"/g, '""')`. */
  function DoubleQuotes(s: string): (r: string)
    ensures |r| == |s| + Occurrences(s, Quote)
  {
    if s == [] then "" else (if s[0] == Quote then [Quote, Quote] else [s[0]]) + DoubleQuotes(s[1..])
  }

  lemma {:induction false} DoubleQuotesOccurrences(s: string)
    ensures Occurrences(DoubleQuotes(s), Quote) == 2 * Occurrences(s, Quote)
  {
    if s != [] {
      DoubleQuotesOccurrences(s[1..]);
      OccurrencesAppend(if s[0] == Quote then [Quote, Quote] else [s[0]], DoubleQuotes(s[1..]), Quote);
    }
  }

  /** A text wrapped in quotes, inner quotes doubled. */
  function QuoteText(s: string): string {
    [Quote] + DoubleQuotes(s) + [Quote]
  }

  /** `escapeCsvCell`: `null` and `undefined` become the empty text before quoting. */
  function EscapeCsvCell(v: Option<string>): (r: string)
    ensures |r| >= 2 && r[0] == Quote && r[|r| - 1] == Quote
    ensures |r| == |v.GetOr("")| + Occurrences(v.GetOr(""), Quote) + 2
  {
    QuoteText(v.GetOr(""))
  }

  /**
   * Reads a quoted cell's content, starting after its opening quote: `""` stands for one quote
   * and a lone `"` closes the cell. Returns the content and the text after the closing quote, or
   * `None` when the cell is never closed.
   */
  function ReadQuoted(s: string): (r: Option<(string, string)>)
    ensures r.Some? ==> |r.value.1| < |s|
    decreases |s|
  {
    if s == [] then None
    else if s[0] == Quote then
      if |s| >= 2 && s[1] == Quote then
        match ReadQuoted(s[2..])
        case Some((c, rest)) => Some(([Quote] + c, rest))
        case None => None
      else Some(("", s[1..]))
    else
      match ReadQuoted(s[1..])
      case Some((c, rest)) => Some(([s[0]] + c, rest))
      case None => None
  }

  /** Reading back an escaped text returns the text and stops right after the closing quote. */
  lemma {:induction false} ReadQuotedEscaped(x: string, t: string)
    requires t == [] || t[0] != Quote
    ensures ReadQuoted(DoubleQuotes(x) + [Quote] + t) == Some((x, t))
  {
    var s := DoubleQuotes(x) + [Quote] + t;
    if x == [] {
      assert s == [Quote] + t;
      assert s[1..] == t;
    } else {
      ReadQuotedEscaped(x[1..], t);
      var tail := DoubleQuotes(x[1..]) + [Quote] + t;
      if x[0] == Quote {
        assert s == [Quote, Quote] + tail;
        assert s[2..] == tail;
      } else {
        assert s == [x[0]] + tail;
        assert s[1..] == tail;
      }
      assert [x[0]] + x[1..] == x;
    }
  }

  /** The round trip of one cell: dropping the outer quotes and un-doubling recovers the text. */
  lemma CellRoundTrip(v: Option<string>)
    ensures ReadQuoted(EscapeCsvCell(v)[1..]) == Some((v.GetOr(""), ""))
  {
    ReadQuotedEscaped(v.GetOr(""), "");
    assert EscapeCsvCell(v)[1..] == DoubleQuotes(v.GetOr("")) + [Quote] + "";
  }

  /** An escaped cell holds an even number of quotes: twice the text's, plus the outer two. */
  lemma EscapedCellBalanced(v: Option<string>)
    ensures Occurrences(EscapeCsvCell(v), Quote) == 2 * Occurrences(v.GetOr(""), Quote) + 2
  {
    var s := v.GetOr("");
    DoubleQuotesOccurrences(s);
    OccurrencesAppend([Quote], DoubleQuotes(s), Quote);
    OccurrencesAppend([Quote] + DoubleQuotes(s), [Quote], Quote);
  }

  /** The texts of a row's cells, `null`/`undefined` read as empty. */
  function Texts(cells: seq<Option<string>>): (r: seq<string>)
    ensures |r| == |cells| && forall i :: 0 <= i < |cells| ==> r[i] == cells[i].GetOr("")
  {
    seq(|cells|, i requires 0 <= i < |cells| => cells[i].GetOr(""))
  }

  function QuoteAll(xs: seq<string>): (r: seq<string>)
    ensures |r| == |xs| && forall i :: 0 <= i < |xs| ==> r[i] == QuoteText(xs[i])
  {
    seq(|xs|, i requires 0 <= i < |xs| => QuoteText(xs[i]))
  }

  /** `r.map(escapeCsvCell).join(',')`. */
  function EncodeLine(cells: seq<Option<string>>): string {
    Join(seq(|cells|, i requires 0 <= i < |cells| => EscapeCsvCell(cells[i])), ",")
  }

  /** `rows.map((r) => r.map(escapeCsvCell).join(','))`. */
  function EncodeLines(rows: seq<seq<Option<string>>>): (r: seq<string>)
    ensures |r| == |rows| && forall i :: 0 <= i < |rows| ==> r[i] == EncodeLine(rows[i])
  {
    if rows == [] then [] else [EncodeLine(rows[0])] + EncodeLines(rows[1..])
  }

  /** The texts of each row, in row order. */
  function TextsOf(rows: seq<seq<Option<string>>>): (r: seq<seq<string>>)
    ensures |r| == |rows| && forall i :: 0 <= i < |rows| ==> r[i] == Texts(rows[i])
  {
    if rows == [] then [] else [Texts(rows[0])] + TextsOf(rows[1..])
  }

  /** `buildCsv(header, rows)`: the mark, then the header line and one line per row, joined by `\n`. */
  function BuildCsv(header: seq<Option<string>>, rows: seq<seq<Option<string>>>): (csv: string)
    ensures |csv| >= 1 && csv[0] == Bom
  {
    [Bom] + Join([EncodeLine(header)] + EncodeLines(rows), "\n")
  }

  /** Reads one or more quoted cells separated by `,`, returning them and the text after the last. */
  function ReadCells(s: string): (r: Option<(seq<string>, string)>)
    ensures r.Some? ==> |r.value.1| < |s|
    decreases |s|
  {
    if s == [] || s[0] != Quote then None
    else
      match ReadQuoted(s[1..])
      case None => None
      case Some((c, rest)) =>
        if rest != [] && rest[0] == ',' then
          match ReadCells(rest[1..])
          case None => None
          case Some((cs, rest2)) => Some(([c] + cs, rest2))
        else Some(([c], rest))
  }

  /** Reads one line: no cells when the line is empty, else one or more cells. */
  function ReadLine(s: string): (r: Option<(seq<string>, string)>)
    ensures r.Some? ==> |r.value.1| <= |s|
  {
    if s == [] || s[0] == '\n' then Some(([], s)) else ReadCells(s)
  }

  /** Reads lines separated by `\n` up to the end of the text. */
  function ReadLines(s: string): (r: Option<seq<seq<string>>>)
    ensures r.Some? ==> |r.value| >= 1
    decreases |s|
  {
    match ReadLine(s)
    case None => None
    case Some((cells, rest)) =>
      if rest == [] then Some([cells])
      else if rest[0] == '\n' then
        match ReadLines(rest[1..])
        case None => None
        case Some(more) => Some([cells] + more)
      else None
  }

  /** The reader of the exported format: the mark, then the lines. */
  function ParseCsv(text: string): Option<seq<seq<string>>> {
    if text != [] && text[0] == Bom then ReadLines(text[1..]) else None
  }

  lemma ReadCellsLast(x: string, t: string)
    requires t == [] || t[0] == '\n'
    ensures ReadCells(QuoteText(x) + t) == Some(([x], t))
  {
    var s := QuoteText(x) + t;
    assert s[1..] == DoubleQuotes(x) + [Quote] + t;
    ReadQuotedEscaped(x, t);
  }

  lemma ReadCellsMore(x: string, rest: string)
    ensures ReadCells(QuoteText(x) + "," + rest)
      == match ReadCells(rest)
         case None => None
         case Some((cs, rest2)) => Some(([x] + cs, rest2))
  {
    var s := QuoteText(x) + "," + rest;
    var after := "," + rest;
    assert s[1..] == DoubleQuotes(x) + [Quote] + after;
    ReadQuotedEscaped(x, after);
    assert after[1..] == rest;
  }

  lemma {:induction false} ReadCellsJoined(xs: seq<string>, t: string)
    requires xs != []
    requires t == [] || t[0] == '\n'
    ensures ReadCells(Join(QuoteAll(xs), ",") + t) == Some((xs, t))
  {
    if |xs| == 1 {
      assert Join(QuoteAll(xs), ",") == QuoteText(xs[0]);
      assert [xs[0]] == xs;
      ReadCellsLast(xs[0], t);
    } else {
      var restJoined := Join(QuoteAll(xs[1..]), ",");
      assert QuoteAll(xs)[1..] == QuoteAll(xs[1..]);
      assert Join(QuoteAll(xs), ",") + t == QuoteText(xs[0]) + "," + (restJoined + t);
      ReadCellsJoined(xs[1..], t);
      ReadCellsMore(xs[0], restJoined + t);
      assert [xs[0]] + xs[1..] == xs;
    }
  }

  /** Reading a line back, up to a line break or the end, recovers its cell texts. */
  lemma ReadLineEncoded(cells: seq<Option<string>>, t: string)
    requires t == [] || t[0] == '\n'
    ensures ReadLine(EncodeLine(cells) + t) == Some((Texts(cells), t))
  {
    var escaped := seq(|cells|, i requires 0 <= i < |cells| => EscapeCsvCell(cells[i]));
    assert escaped == QuoteAll(Texts(cells));
    if cells == [] {
      assert EncodeLine(cells) + t == t;
    } else {
      ReadCellsJoined(Texts(cells), t);
      assert Join(QuoteAll(Texts(cells)), ",") + t != [] && (Join(QuoteAll(Texts(cells)), ",") + t)[0] == Quote;
    }
  }

  lemma {:induction false} ReadLinesJoined(lines: seq<seq<Option<string>>>)
    requires lines != []
    ensures ReadLines(Join(EncodeLines(lines), "\n")) == Some(TextsOf(lines))
  {
    var encoded := EncodeLines(lines);
    if |lines| == 1 {
      ReadLineEncoded(lines[0], "");
      assert encoded == [EncodeLine(lines[0])];
      assert Join(encoded, "\n") == EncodeLine(lines[0]) + "";
      assert TextsOf(lines) == [Texts(lines[0])];
    } else {
      var restJoined := Join(EncodeLines(lines[1..]), "\n");
      assert encoded == [EncodeLine(lines[0])] + EncodeLines(lines[1..]);
      assert Join(encoded, "\n") == EncodeLine(lines[0]) + ("\n" + restJoined);
      ReadLineEncoded(lines[0], "\n" + restJoined);
      assert ("\n" + restJoined)[1..] == restJoined;
      ReadLinesJoined(lines[1..]);
    }
  }

  /**
   * The exported text reads back as the header's texts followed by each row's texts: escaping
   * loses nothing but the difference between an empty cell and a missing one.
   */
  lemma CsvRoundTrip(header: seq<Option<string>>, rows: seq<seq<Option<string>>>)
    ensures ParseCsv(BuildCsv(header, rows)) == Some([Texts(header)] + TextsOf(rows))
  {
    var lines := [header] + rows;
    assert lines[1..] == rows;
    assert EncodeLines(lines) == [EncodeLine(header)] + EncodeLines(rows);
    assert TextsOf(lines) == [Texts(header)] + TextsOf(rows);
    ReadLinesJoined(lines);
    assert BuildCsv(header, rows)[1..] == Join(EncodeLines(lines), "\n");
  }

  lemma {:induction false} JoinedBalanced(parts: seq<string>)
    requires forall i :: 0 <= i < |parts| ==> Occurrences(parts[i], Quote) % 2 == 0
    ensures Occurrences(Join(parts, ","), Quote) % 2 == 0
  {
    if |parts| > 1 {
      JoinedBalanced(parts[1..]);
      OccurrencesAppend(parts[0], ",", Quote);
      OccurrencesAppend(parts[0] + ",", Join(parts[1..], ","), Quote);
    }
  }

  /** Every line holds an even number of quotes. */
  lemma LineBalanced(cells: seq<Option<string>>)
    ensures Occurrences(EncodeLine(cells), Quote) % 2 == 0
  {
    var escaped := seq(|cells|, i requires 0 <= i < |cells| => EscapeCsvCell(cells[i]));
    forall i | 0 <= i < |escaped| ensures Occurrences(escaped[i], Quote) % 2 == 0 {
      EscapedCellBalanced(cells[i]);
    }
    JoinedBalanced(escaped);
  }

  /** `disabled = !header?.length`. */
  predicate ExportDisabled(header: seq<Option<string>>) {
    |header| == 0
  }

  /** The download name: `.csv` is appended unless the name already ends with it. */
  function DownloadName(fileName: string): (r: string)
    ensures EndsWith(r, ".csv")
    ensures r == fileName <==> EndsWith(fileName, ".csv")
    ensures |r| >= |fileName| && r[..|fileName|] == fileName
  {
    if EndsWith(fileName, ".csv") then fileName else fileName + ".csv"
  }

  /** Naming is idempotent: a name already given the suffix is left alone. */
  lemma DownloadNameIdempotent(fileName: string)
    ensures DownloadName(DownloadName(fileName)) == DownloadName(fileName)
  {
  }
}
