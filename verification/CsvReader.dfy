/** Python's `csv.reader` with a space as delimiter and `skipinitialspace`, over a file opened
    without newline translation. */
module CsvReader {

  datatype Mode = RecordStart | FieldStart | InField | InQuotes | QuoteInQuotes | LineEnd

  /** The open field, the fields before it in its row, and the rows before that. */
  datatype Reader = Reader(mode: Mode, field: string, row: seq<string>, rows: seq<seq<string>>)

  function At(rows: seq<seq<string>>): Reader { Reader(RecordStart, [], [], rows) }

  predicate Breaks(c: char) { c == '\n' || c == '\r' }

  function Add(r: Reader, c: char, mode: Mode): Reader { r.(mode := mode, field := r.field + [c]) }
  function Save(r: Reader, mode: Mode): Reader { r.(mode := mode, field := [], row := r.row + [r.field]) }
  function Emit(r: Reader): Reader { At(r.rows + [r.row]) }

  /** One character. Quotes count only at the start of a field; after a closing quote the field
      goes on unquoted. */
  function Feed(r: Reader, c: char): Reader {
    match r.mode
    case InField => Unquoted(r, c)
    case InQuotes => if c == '"' then r.(mode := QuoteInQuotes) else Add(r, c, InQuotes)
    case QuoteInQuotes => if c == '"' then Add(r, c, InQuotes) else Unquoted(r, c)
    case LineEnd => r
    case _ =>
      if Breaks(c) then if r.mode.RecordStart? then r.(mode := LineEnd) else Save(r, LineEnd)
      else if c == '"' then r.(mode := InQuotes)
      else if c == ' ' then r.(mode := FieldStart)
      else Add(r, c, InField)
  }

  function Unquoted(r: Reader, c: char): Reader {
    if Breaks(c) then Save(r, LineEnd) else if c == ' ' then Save(r, FieldStart) else Add(r, c, InField)
  }

  /** After the last character of a line; a quoted field goes on in the next one. */
  function EndLine(r: Reader): Reader {
    match r.mode
    case InQuotes => r
    case RecordStart => Emit(r)
    case LineEnd => Emit(r)
    case _ => Emit(Save(r, RecordStart))
  }

  /** A line ends at a line feed, a carriage return, or the pair of both. */
  predicate EndsLine(text: string) {
    text != [] && Breaks(text[0]) && !(text[0] == '\r' && |text| > 1 && text[1] == '\n')
  }

  function Next(r: Reader, text: string): Reader
    requires text != []
  {
    var fed := Feed(r, text[0]);
    if EndsLine(text) then EndLine(fed) else fed
  }

  function Read(r: Reader, text: string): Reader
    decreases |text|
  {
    if text == [] then r else Read(Next(r, text), text[1..])
  }

  /** At the end of the file an open field still counts. */
  function Close(r: Reader): seq<seq<string>> {
    if r.mode.InQuotes? || r.field != [] then r.rows + [r.row + [r.field]] else r.rows
  }

  /** The reader after the last line, which may lack a line break. */
  function Ended(text: string): Reader {
    var r := Read(At([]), text);
    if text != [] && !Breaks(text[|text| - 1]) then EndLine(r) else r
  }

  function Rows(text: string): seq<seq<string>> { Close(Ended(text)) }

  // ----- text that reads back -----

  /** Text that as a field of its own reads back as it is. */
  predicate Readable(s: string) {
    ' ' !in s && '\n' !in s && '\r' !in s && (s == [] || s[0] != '"')
  }

  lemma {:induction false} ReadInField(r: Reader, s: string, rest: string)
    requires r.mode.InField? && ' ' !in s && '\n' !in s && '\r' !in s
    ensures Read(r, s + rest) == Read(r.(field := r.field + s), rest)
    decreases |s|
  {
    if s == [] {
      assert s + rest == rest && r.field + s == r.field;
    } else {
      assert (s + rest)[1..] == s[1..] + rest && r.field + s == r.field + [s[0]] + s[1..];
      assert Next(r, s + rest) == Add(r, s[0], InField);
      ReadInField(Add(r, s[0], InField), s[1..], rest);
    }
  }

  lemma ReadField(r: Reader, s: string, rest: string)
    requires (r.mode.RecordStart? || r.mode.FieldStart?) && r.field == [] && Readable(s) && s != []
    ensures Read(r, s + rest) == Read(r.(mode := InField, field := s), rest)
  {
    var first := r.(mode := InField, field := [s[0]]);
    assert (s + rest)[1..] == s[1..] + rest && first.field + s[1..] == s;
    assert r.field + [s[0]] == [s[0]];
    assert Next(r, s + rest) == first;
    ReadInField(first, s[1..], rest);
  }

  lemma ReadChar(r: Reader, c: char, rest: string)
    requires c != '\r'
    ensures Read(r, [c] + rest) == Read(if c == '\n' then EndLine(Feed(r, c)) else Feed(r, c), rest)
  {
    assert ([c] + rest)[1..] == rest;
  }

  /** A line of two readable fields, two spaces between them, is one row. */
  lemma ReadLine(rows: seq<seq<string>>, d: string, name: string, rest: string)
    requires Readable(d) && d != [] && Readable(name)
    ensures Read(At(rows), d + "  " + name + "\n" + rest) == Read(At(rows + [[d, name]]), rest)
  {
    var tail := name + ("\n" + rest);
    assert d + "  " + name + "\n" + rest == d + ([' '] + ([' '] + tail));
    ReadField(At(rows), d, [' '] + ([' '] + tail));
    var first := At(rows).(mode := InField, field := d);
    ReadChar(first, ' ', [' '] + tail);
    var second := Reader(FieldStart, [], [d], rows);
    assert first.row + [d] == [d] && Feed(first, ' ') == second && Feed(second, ' ') == second;
    ReadChar(second, ' ', tail);
    ReadName(second, name, rest);
    assert [d] + [name] == [d, name];
  }

  lemma ReadName(r: Reader, name: string, rest: string)
    requires r.mode.FieldStart? && r.field == [] && Readable(name)
    ensures Read(r, name + ("\n" + rest)) == Read(At(r.rows + [r.row + [name]]), rest)
  {
    if name == [] {
      assert name + ("\n" + rest) == ['\n'] + rest;
      ReadChar(r, '\n', rest);
    } else {
      ReadField(r, name, "\n" + rest);
      ReadChar(r.(mode := InField, field := name), '\n', rest);
    }
  }

  // ----- what quotes cost -----

  function Quotes(s: string): nat { if s == [] then 0 else Quotes(s[..|s| - 1]) + if s[|s| - 1] == '"' then 1 else 0 }

  /** A field costs the quotes it holds, and one more unless it is readable. */
  function Cost(s: string): nat { Quotes(s) + if Readable(s) then 0 else 1 }
  function RowCost(row: seq<string>): nat { if row == [] then 0 else RowCost(row[..|row| - 1]) + Cost(row[|row| - 1]) }
  function RowsCost(rows: seq<seq<string>>): nat {
    if rows == [] then 0 else RowsCost(rows[..|rows| - 1]) + RowCost(rows[|rows| - 1])
  }

  function OpenCost(r: Reader): nat {
    if r.mode.InQuotes? || r.mode.QuoteInQuotes? then Quotes(r.field) + 1 else Cost(r.field)
  }

  function Spent(r: Reader): nat { RowsCost(r.rows) + RowCost(r.row) + OpenCost(r) }

  predicate Sound(r: Reader) {
    (r.mode.InField? ==> r.field != []) &&
      (r.mode.RecordStart? || r.mode.FieldStart? || r.mode.LineEnd? ==> r.field == [])
  }

  lemma QuotesSnoc(s: string, c: char)
    ensures Quotes(s + [c]) == Quotes(s) + if c == '"' then 1 else 0
  {
    assert (s + [c])[..|s|] == s;
  }

  lemma RowCostSnoc(row: seq<string>, s: string)
    ensures RowCost(row + [s]) == RowCost(row) + Cost(s)
  {
    assert (row + [s])[..|row|] == row;
  }

  lemma RowsCostSnoc(rows: seq<seq<string>>, row: seq<string>)
    ensures RowsCost(rows + [row]) == RowsCost(rows) + RowCost(row)
  {
    assert (rows + [row])[..|rows|] == rows;
  }

  lemma FeedCost(r: Reader, c: char)
    requires Sound(r)
    ensures Sound(Feed(r, c)) && Spent(Feed(r, c)) <= Spent(r) + if c == '"' then 1 else 0
  {
    match r.mode
    case InField => UnquotedCost(r, c);
    case InQuotes => QuotedCost(r, c);
    case QuoteInQuotes => if c == '"' { QuotedCost(r, c); } else { UnquotedCost(r, c); }
    case LineEnd =>
    case _ => StartCost(r, c);
  }

  lemma QuotedCost(r: Reader, c: char)
    requires r.mode.InQuotes? || (r.mode.QuoteInQuotes? && c == '"')
    ensures Sound(Feed(r, c)) && Spent(Feed(r, c)) <= Spent(r) + if c == '"' then 1 else 0
  {
    QuotesSnoc(r.field, c);
  }

  lemma SaveCost(r: Reader, mode: Mode)
    requires mode.FieldStart? || mode.LineEnd? || mode.RecordStart?
    ensures Sound(Save(r, mode)) && Spent(Save(r, mode)) <= Spent(r)
  {
    RowCostSnoc(r.row, r.field);
  }

  lemma UnquotedCost(r: Reader, c: char)
    requires Sound(r) && (r.mode.InField? || (r.mode.QuoteInQuotes? && c != '"'))
    ensures Sound(Unquoted(r, c)) && Spent(Unquoted(r, c)) <= Spent(r) + if c == '"' then 1 else 0
  {
    SaveCost(r, LineEnd);
    SaveCost(r, FieldStart);
    QuotesSnoc(r.field, c);
    if Readable(r.field) && r.field != [] && !Breaks(c) && c != ' ' { StaysReadable(r.field, c); }
  }

  lemma StaysReadable(s: string, c: char)
    requires Readable(s) && s != [] && !Breaks(c) && c != ' '
    ensures Readable(s + [c])
  {
  }

  lemma StartCost(r: Reader, c: char)
    requires r.field == [] && (r.mode.RecordStart? || r.mode.FieldStart?)
    ensures Sound(Feed(r, c)) && Spent(Feed(r, c)) <= Spent(r) + if c == '"' then 1 else 0
  {
    if Breaks(c) {
      SaveCost(r, LineEnd);
    } else if c != '"' && c != ' ' {
      FreeCharacter(r.field, c);
    }
  }

  lemma FreeCharacter(s: string, c: char)
    requires s == [] && c != '"' && !Breaks(c) && c != ' '
    ensures Cost(s + [c]) == 0
  {
    QuotesSnoc(s, c);
  }

  lemma EndLineCost(r: Reader)
    requires Sound(r)
    ensures Sound(EndLine(r)) && Spent(EndLine(r)) <= Spent(r)
  {
    SaveCost(r, RecordStart);
    EmitCost(r);
    EmitCost(Save(r, RecordStart));
  }

  lemma EmitCost(r: Reader)
    ensures Sound(Emit(r)) && Spent(Emit(r)) == RowsCost(r.rows) + RowCost(r.row)
  {
    RowsCostSnoc(r.rows, r.row);
  }

  lemma {:induction false} QuotesCons(c: char, s: string)
    ensures Quotes([c] + s) == (if c == '"' then 1 else 0) + Quotes(s)
  {
    if s != [] {
      QuotesCons(c, s[..|s| - 1]);
      assert ([c] + s)[..|s|] == [c] + s[..|s| - 1];
    }
  }

  lemma NextCost(r: Reader, text: string)
    requires Sound(r) && text != []
    ensures Sound(Next(r, text)) && Spent(Next(r, text)) + Quotes(text[1..]) <= Spent(r) + Quotes(text)
  {
    FeedCost(r, text[0]);
    EndLineCost(Feed(r, text[0]));
    QuotesCons(text[0], text[1..]);
    assert text == [text[0]] + text[1..];
  }

  lemma {:induction false} ReadCost(r: Reader, text: string, spent: nat, quotes: nat)
    requires Sound(r) && Spent(r) == spent && Quotes(text) == quotes
    ensures Sound(Read(r, text)) && Spent(Read(r, text)) <= spent + quotes
    decreases |text|
  {
    if text != [] {
      NextCost(r, text);
      ReadCost(Next(r, text), text[1..], Spent(Next(r, text)), Quotes(text[1..]));
    }
  }

  lemma CloseCost(r: Reader)
    requires Sound(r)
    ensures RowsCost(Close(r)) <= Spent(r)
  {
    RowCostSnoc(r.row, r.field);
    RowsCostSnoc(r.rows, r.row + [r.field]);
  }

  /** Text pays one quote for each quote that is read out of it and for each field that is not
      readable. */
  lemma RowsCostQuotes(text: string)
    ensures RowsCost(Rows(text)) <= Quotes(text)
  {
    EndedCost(text, Read(At([]), text));
    CloseCost(Ended(text));
  }

  lemma EndedCost(text: string, r: Reader)
    requires r == Read(At([]), text)
    ensures Sound(Ended(text)) && Spent(Ended(text)) <= Quotes(text)
  {
    StartIsFree();
    ReadCost(At([]), text, 0, Quotes(text));
    EndLineCost(r);
  }

  lemma StartIsFree()
    ensures Sound(At([])) && Spent(At([])) == 0
  {
  }
}
