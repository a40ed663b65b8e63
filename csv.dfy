/**
 * The two CSV exports of the dashboard build their text by hand:
 * the timesheet export quotes its notes as section 2 rule 7 of RFC 4180
 * asks (every `"` doubled), the availability export wraps every field in
 * quotes without escaping anything.  Records are separated by a bare LF,
 * not by the CRLF of section 2 rule 1.
 *
 * The partner of the encoders is a reader for that format: quoted fields may
 * hold commas, line feeds and doubled quotes; unquoted fields run to the
 * next comma or line feed.  Encoding a table and reading it back gives the
 * table's values, under the conditions the encoders need.
 */
module Csv {
  import opened Wrappers
  import opened Text

  /** Every `"` doubled: `s.replace(/"/g, '""')`. */
  function DoubleQuotes(s: string): (r: string)
    ensures '"' !in s ==> r == s
    ensures |r| >= |s|
    decreases |s|
  {
    if |s| == 0 then ""
    else if s[0] == '"' then "\"\"" + DoubleQuotes(s[1..])
    else [s[0]] + DoubleQuotes(s[1..])
  }

  /** A field quoted according to section 2 rule 7 of RFC 4180. */
  function Quote(s: string): string { "\"" + DoubleQuotes(s) + "\"" }

  /** A field wrapped in quotes with nothing escaped. */
  function QuoteRaw(s: string): string { "\"" + s + "\"" }

  /** The two quotings agree exactly on fields without a `"`. */
  lemma {:induction false} QuoteRawIsQuoteWithoutQuotes(s: string)
    requires '"' !in s
    ensures QuoteRaw(s) == Quote(s)
  {
  }

  // ---------------------------------------------------------------------------
  // Reading the format back

  /**
   * The rest of a quoted field after its opening quote: the field's value
   * and what follows the closing quote; `""` stands for one `"`.
   */
  function ReadQuoted(s: string): (r: Option<(string, string)>)
    ensures r.Some? ==> |r.value.1| < |s|
    decreases |s|
  {
    if |s| == 0 then None
    else if s[0] == '"' then
      if |s| >= 2 && s[1] == '"' then
        match ReadQuoted(s[2..])
        case Some((v, rest)) => Some(("\"" + v, rest))
        case None => None
      else Some(("", s[1..]))
    else
      match ReadQuoted(s[1..])
      case Some((v, rest)) => Some(([s[0]] + v, rest))
      case None => None
  }

  /** An unquoted field: everything up to the next comma or line feed. */
  function ReadPlain(s: string): (r: (string, string))
    ensures r.0 + r.1 == s
    ensures ',' !in r.0 && '\n' !in r.0
    ensures |r.1| > 0 ==> r.1[0] == ',' || r.1[0] == '\n'
    decreases |s|
  {
    if |s| == 0 || s[0] == ',' || s[0] == '\n' then ("", s)
    else
      var (v, rest) := ReadPlain(s[1..]);
      assert [s[0]] + v + rest == [s[0]] + (v + rest);
      ([s[0]] + v, rest)
  }

  /** One field, quoted or not, and the text after it. */
  function ReadField(s: string): (r: Option<(string, string)>)
    ensures r.Some? ==> |r.value.1| <= |s|
  {
    if |s| > 0 && s[0] == '"' then ReadQuoted(s[1..]) else Some(ReadPlain(s))
  }

  /** One record: fields separated by commas, up to a line feed or the end. */
  function ReadRecord(s: string): (r: Option<(seq<string>, string)>)
    ensures r.Some? ==> |r.value.0| >= 1 && |r.value.1| <= |s|
    ensures r.Some? && |r.value.1| > 0 ==> r.value.1[0] == '\n'
    decreases |s|
  {
    match ReadField(s)
    case None => None
    case Some((f, rest)) =>
      if |rest| > 0 && rest[0] == ',' then
        match ReadRecord(rest[1..])
        case Some((fs, rest')) => Some(([f] + fs, rest'))
        case None => None
      else if |rest| == 0 || rest[0] == '\n' then Some(([f], rest))
      else None
  }

  /** A whole text: records separated by line feeds. */
  function ReadTable(s: string): (r: Option<seq<seq<string>>>)
    ensures r.Some? ==> |r.value| >= 1
    decreases |s|
  {
    match ReadRecord(s)
    case None => None
    case Some((rec, rest)) =>
      if |rest| == 0 then Some([rec])
      else
        match ReadTable(rest[1..])
        case Some(recs) => Some([rec] + recs)
        case None => None
  }

  // ---------------------------------------------------------------------------
  // What the exports write

  /** How one field is written: as it is, quoted with escaping, or wrapped in quotes only. */
  datatype Cell = Plain(text: string) | Escaped(text: string) | Wrapped(text: string)

  function EncodeCell(c: Cell): string
  {
    match c
    case Plain(t) => t
    case Escaped(t) => Quote(t)
    case Wrapped(t) => QuoteRaw(t)
  }

  /**
   * A cell the reader gives back: a plain field holds no separator and no
   * quote, a wrapped field holds no quote; an escaped field may hold anything.
   */
  predicate Readable(c: Cell)
  {
    match c
    case Plain(t) => ',' !in t && '\n' !in t && '"' !in t
    case Escaped(_) => true
    case Wrapped(t) => '"' !in t
  }

  function Encoded(cells: seq<Cell>): (r: seq<string>)
    ensures |r| == |cells|
    ensures forall i :: 0 <= i < |cells| ==> r[i] == EncodeCell(cells[i])
  {
    if |cells| == 0 then [] else [EncodeCell(cells[0])] + Encoded(cells[1..])
  }

  function Texts(cells: seq<Cell>): (r: seq<string>)
    ensures |r| == |cells|
    ensures forall i :: 0 <= i < |cells| ==> r[i] == cells[i].text
  {
    if |cells| == 0 then [] else [cells[0].text] + Texts(cells[1..])
  }

  /** One line of an export: the encoded fields joined by commas. */
  function EncodeRecord(cells: seq<Cell>): string { Join(Encoded(cells), ",") }

  /** A whole export: the lines joined by a line feed. */
  function EncodeTable(rows: seq<seq<Cell>>): string
  {
    Join(EncodedRecords(rows), "\n")
  }

  function EncodedRecords(rows: seq<seq<Cell>>): (r: seq<string>)
    ensures |r| == |rows|
    ensures forall i :: 0 <= i < |rows| ==> r[i] == EncodeRecord(rows[i])
  {
    if |rows| == 0 then [] else [EncodeRecord(rows[0])] + EncodedRecords(rows[1..])
  }

  function TableTexts(rows: seq<seq<Cell>>): (r: seq<seq<string>>)
    ensures |r| == |rows|
    ensures forall i :: 0 <= i < |rows| ==> r[i] == Texts(rows[i])
  {
    if |rows| == 0 then [] else [Texts(rows[0])] + TableTexts(rows[1..])
  }

  // ---------------------------------------------------------------------------
  // Round trips

  /** A doubled quote inside a quoted field stands for one `"`. */
  lemma {:induction false} ReadQuotedDoubledStep(v: string, rest: string)
    requires |v| > 0 && v[0] == '"'
    requires ReadQuoted(DoubleQuotes(v[1..]) + "\"" + rest) == Some((v[1..], rest))
    ensures ReadQuoted(DoubleQuotes(v) + "\"" + rest) == Some((v, rest))
  {
    var x := DoubleQuotes(v[1..]) + "\"" + rest;
    assert DoubleQuotes(v) + "\"" + rest == "\"\"" + x;
    assert ("\"\"" + x)[2..] == x;
    assert "\"" + v[1..] == v;
  }

  /** Any other character inside a quoted field stands for itself. */
  lemma {:induction false} ReadQuotedCharStep(v: string, rest: string)
    requires |v| > 0 && v[0] != '"'
    requires ReadQuoted(DoubleQuotes(v[1..]) + "\"" + rest) == Some((v[1..], rest))
    ensures ReadQuoted(DoubleQuotes(v) + "\"" + rest) == Some((v, rest))
  {
    var x := DoubleQuotes(v[1..]) + "\"" + rest;
    assert DoubleQuotes(v) + "\"" + rest == [v[0]] + x;
    assert ([v[0]] + x)[1..] == x;
    assert [v[0]] + v[1..] == v;
  }

  /** A doubled-quote body followed by the closing quote reads back as the original value. */
  lemma {:induction false} ReadQuotedOfDoubled(v: string, rest: string)
    requires |rest| == 0 || rest[0] != '"'
    ensures ReadQuoted(DoubleQuotes(v) + "\"" + rest) == Some((v, rest))
    decreases |v|
  {
    if |v| == 0 {
      assert DoubleQuotes(v) + "\"" + rest == "\"" + rest;
      assert ("\"" + rest)[1..] == rest;
    } else {
      ReadQuotedOfDoubled(v[1..], rest);
      if v[0] == '"' {
        ReadQuotedDoubledStep(v, rest);
      } else {
        ReadQuotedCharStep(v, rest);
      }
    }
  }

  /** An unquoted field without separators reads back up to the separator after it. */
  lemma {:induction false} ReadPlainOf(t: string, rest: string)
    requires ',' !in t && '\n' !in t
    requires |rest| == 0 || rest[0] == ',' || rest[0] == '\n'
    ensures ReadPlain(t + rest) == (t, rest)
    decreases |t|
  {
    if |t| == 0 {
      assert t + rest == rest;
    } else {
      assert (t + rest)[1..] == t[1..] + rest;
      ReadPlainOf(t[1..], rest);
      assert [t[0]] + t[1..] == t;
    }
  }

  /** A plain field without separators or quotes reads back as itself. */
  lemma {:induction false} ReadFieldOfPlain(t: string, rest: string)
    requires ',' !in t && '\n' !in t && '"' !in t
    requires |rest| == 0 || rest[0] == ',' || rest[0] == '\n'
    ensures ReadField(t + rest) == Some((t, rest))
  {
    ReadPlainOf(t, rest);
    if |t| > 0 {
      assert (t + rest)[0] == t[0];
    } else {
      assert t + rest == rest;
    }
  }

  /** A quoted field reads back as the value it quotes. */
  lemma {:induction false} ReadFieldOfQuote(t: string, rest: string)
    requires |rest| == 0 || rest[0] == ',' || rest[0] == '\n'
    ensures ReadField(Quote(t) + rest) == Some((t, rest))
  {
    var s := Quote(t) + rest;
    assert s == "\"" + (DoubleQuotes(t) + "\"" + rest);
    assert s[0] == '"' && s[1..] == DoubleQuotes(t) + "\"" + rest;
    ReadQuotedOfDoubled(t, rest);
  }

  /** Every readable cell reads back as its text, whatever separator follows it. */
  lemma {:induction false} ReadFieldOfCell(c: Cell, rest: string)
    requires Readable(c)
    requires |rest| == 0 || rest[0] == ',' || rest[0] == '\n'
    ensures ReadField(EncodeCell(c) + rest) == Some((c.text, rest))
  {
    match c
    case Plain(t) =>
      ReadFieldOfPlain(t, rest);
    case Escaped(t) =>
      ReadFieldOfQuote(t, rest);
    case Wrapped(t) =>
      QuoteRawIsQuoteWithoutQuotes(t);
      ReadFieldOfQuote(t, rest);
  }

  /** A field followed by a comma starts a record: the record is that field and the fields after the comma. */
  lemma {:induction false} ReadRecordStep(x: string, f: string, after: string, fs: seq<string>, rest: string)
    requires ReadField(x) == Some((f, after))
    requires |after| > 0 && after[0] == ','
    requires ReadRecord(after[1..]) == Some((fs, rest))
    ensures ReadRecord(x) == Some(([f] + fs, rest))
  {
  }

  /** A record of one readable cell reads back as that cell's text. */
  lemma {:induction false} ReadRecordOfOne(c: Cell, rest: string)
    requires Readable(c)
    requires |rest| == 0 || rest[0] == '\n'
    ensures ReadRecord(EncodeRecord([c]) + rest) == Some((Texts([c]), rest))
  {
    ReadFieldOfCell(c, rest);
    assert Encoded([c]) == [EncodeCell(c)];
    assert Texts([c]) == [c.text];
  }

  /** A record of readable cells reads back as the cells' texts. */
  lemma {:induction false} ReadRecordOfCells(cells: seq<Cell>, rest: string)
    requires |cells| >= 1
    requires forall i :: 0 <= i < |cells| ==> Readable(cells[i])
    requires |rest| == 0 || rest[0] == '\n'
    ensures ReadRecord(EncodeRecord(cells) + rest) == Some((Texts(cells), rest))
    decreases |cells|
  {
    if |cells| == 1 {
      ReadRecordOfOne(cells[0], rest);
      assert cells == [cells[0]];
    } else {
      var tail := EncodeRecord(cells[1..]);
      assert Encoded(cells)[1..] == Encoded(cells[1..]);
      assert EncodeRecord(cells) == EncodeCell(cells[0]) + "," + tail;
      var after := "," + tail + rest;
      assert EncodeRecord(cells) + rest == EncodeCell(cells[0]) + after;
      ReadFieldOfCell(cells[0], after);
      assert after[1..] == tail + rest;
      ReadRecordOfCells(cells[1..], rest);
      ReadRecordStep(EncodeRecord(cells) + rest, cells[0].text, after, Texts(cells[1..]), rest);
      assert [cells[0].text] + Texts(cells[1..]) == Texts(cells);
    }
  }

  /**
   * Reading an export back gives the table of texts: the exports' encoding
   * loses nothing when every line has a field and every cell is readable.
   */
  lemma {:induction false} ReadTableOfEncoded(rows: seq<seq<Cell>>)
    requires |rows| >= 1
    requires forall k :: 0 <= k < |rows| ==> |rows[k]| >= 1
    requires forall k, i :: 0 <= k < |rows| && 0 <= i < |rows[k]| ==> Readable(rows[k][i])
    ensures ReadTable(EncodeTable(rows)) == Some(TableTexts(rows))
    decreases |rows|
  {
    if |rows| == 1 {
      ReadRecordOfCells(rows[0], "");
      assert EncodeRecord(rows[0]) + "" == EncodeRecord(rows[0]);
      assert EncodedRecords(rows) == [EncodeRecord(rows[0])];
      assert TableTexts(rows) == [Texts(rows[0])];
    } else {
      var tail := EncodeTable(rows[1..]);
      assert EncodedRecords(rows)[1..] == EncodedRecords(rows[1..]);
      assert EncodeTable(rows) == EncodeRecord(rows[0]) + ("\n" + tail);
      ReadRecordOfCells(rows[0], "\n" + tail);
      assert ("\n" + tail)[1..] == tail;
      ReadTableOfEncoded(rows[1..]);
      assert [Texts(rows[0])] + TableTexts(rows[1..]) == TableTexts(rows);
    }
  }

  /**
   * Wrapping without escaping is not enough once a value holds a quote:
   * the value `a"b` written as `"a"b"` does not read back.
   */
  lemma {:induction false} WrappedQuoteBreaksReading(v: string)
    requires v == "a\"b"
    ensures ReadField(QuoteRaw(v)) != Some((v, ""))
  {
    var s := QuoteRaw(v);
    var u := s[1..];
    assert u[0] == 'a' && u[1] == '"' && u[2] == 'b';
    assert u[1..][1..] == u[2..];
    assert ReadQuoted(u[1..]).Some? && ReadQuoted(u[1..]).value.1 == u[2..];
    assert ReadQuoted(u).Some? && ReadQuoted(u).value.1 == u[2..];
    assert |u[2..]| == 2;
  }

  /** A record of several cells is its first cell, a comma and the record of the others. */
  lemma {:induction false} EncodeRecordHead(c: Cell, rest: seq<Cell>)
    requires |rest| >= 1
    ensures EncodeRecord([c] + rest) == EncodeCell(c) + "," + EncodeRecord(rest)
  {
    assert Encoded([c] + rest)[1..] == Encoded(rest);
  }

  /** The first cell holding a comma is written as two cells. */
  lemma {:induction false} PlainCommaSplitsFirst(a: string, b: string, post: seq<Cell>)
    requires |post| >= 1
    ensures EncodeRecord([Plain(a + "," + b)] + post) == EncodeRecord([Plain(a), Plain(b)] + post)
  {
    var e := EncodeRecord(post);
    EncodeRecordHead(Plain(a + "," + b), post);
    EncodeRecordHead(Plain(b), post);
    assert [Plain(a), Plain(b)] + post == [Plain(a)] + ([Plain(b)] + post);
    EncodeRecordHead(Plain(a), [Plain(b)] + post);
    assert (a + "," + b) + "," + e == a + "," + (b + "," + e);
  }

  /**
   * A plain cell holding a comma is written exactly as two plain cells: the
   * comma it holds becomes a separator between fields.
   */
  lemma {:induction false} PlainCommaSplits(pre: seq<Cell>, a: string, b: string, post: seq<Cell>)
    requires |post| >= 1
    ensures EncodeRecord(pre + [Plain(a + "," + b)] + post) == EncodeRecord(pre + [Plain(a), Plain(b)] + post)
    decreases |pre|
  {
    if |pre| == 0 {
      assert pre + [Plain(a + "," + b)] + post == [Plain(a + "," + b)] + post;
      assert pre + [Plain(a), Plain(b)] + post == [Plain(a), Plain(b)] + post;
      PlainCommaSplitsFirst(a, b, post);
    } else {
      var xs := pre[1..] + [Plain(a + "," + b)] + post;
      var ys := pre[1..] + [Plain(a), Plain(b)] + post;
      assert pre + [Plain(a + "," + b)] + post == [pre[0]] + xs;
      assert pre + [Plain(a), Plain(b)] + post == [pre[0]] + ys;
      EncodeRecordHead(pre[0], xs);
      EncodeRecordHead(pre[0], ys);
      PlainCommaSplits(pre[1..], a, b, post);
    }
  }

  // ---------------------------------------------------------------------------
  // A header line of plain names above the data lines

  function PlainCells(texts: seq<string>): (r: seq<Cell>)
    ensures |r| == |texts|
    ensures forall i :: 0 <= i < |texts| ==> r[i] == Plain(texts[i])
  {
    if |texts| == 0 then [] else [Plain(texts[0])] + PlainCells(texts[1..])
  }

  lemma {:induction false} TextsOfPlainCells(texts: seq<string>)
    ensures Texts(PlainCells(texts)) == texts
  {
    var t := Texts(PlainCells(texts));
    assert forall i :: 0 <= i < |texts| ==> t[i] == texts[i];
  }

  lemma {:induction false} HeaderRowsReadable(header: seq<string>, rows: seq<seq<Cell>>)
    requires forall i :: 0 <= i < |header| ==> Readable(Plain(header[i]))
    requires forall k, i :: 0 <= k < |rows| && 0 <= i < |rows[k]| ==> Readable(rows[k][i])
    ensures var all := [PlainCells(header)] + rows;
      forall k, i :: 0 <= k < |all| && 0 <= i < |all[k]| ==> Readable(all[k][i])
  {
    var all := [PlainCells(header)] + rows;
    forall k, i | 0 <= k < |all| && 0 <= i < |all[k]| ensures Readable(all[k][i]) {
      if k == 0 {
        assert all[k][i] == Plain(header[i]);
      } else {
        assert all[k] == rows[k - 1];
      }
    }
  }

  /**
   * An export with a header line reads back as the header names followed
   * by the texts of the data lines.
   */
  lemma {:induction false} ReadTableWithHeader(header: seq<string>, rows: seq<seq<Cell>>)
    requires |header| >= 1
    requires forall i :: 0 <= i < |header| ==> Readable(Plain(header[i]))
    requires forall k :: 0 <= k < |rows| ==> |rows[k]| >= 1
    requires forall k, i :: 0 <= k < |rows| && 0 <= i < |rows[k]| ==> Readable(rows[k][i])
    ensures ReadTable(EncodeTable([PlainCells(header)] + rows)) == Some([header] + TableTexts(rows))
  {
    var all := [PlainCells(header)] + rows;
    HeaderRowsReadable(header, rows);
    ReadTableOfEncoded(all);
    TextsOfPlainCells(header);
    var t := TableTexts(all);
    forall k | 1 <= k < |t| ensures t[k] == TableTexts(rows)[k - 1] {
      assert all[k] == rows[k - 1];
    }
    assert t == [header] + TableTexts(rows);
  }
}
