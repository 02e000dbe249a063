/** The CSV printer and parser of the second demo: escaping, the line scanner, and what of a
    record survives the trip through a line and through a file. */
module Csv {
  import opened Options
  import Collections

  // --- Printing ---

  /** String.Replace of one character. */
  function Replace(s: string, c: char, put: string): string {
    if s == [] then [] else (if s[0] == c then put else [s[0]]) + Replace(s[1..], c, put)
  }

  /** The chain of three replacements, in the printer's order. */
  function Escape(s: string): string {
    Replace(Replace(Replace(s, '\\', "\\\\"), '\n', "\\n"), '"', "\\\"")
  }

  function EscapeChar(c: char): string {
    match c
    case '\\' => "\\\\"
    case '\n' => "\\n"
    case '"' => "\\\""
    case _ => [c]
  }

  function EscapeEach(s: string): string {
    if s == [] then [] else EscapeChar(s[0]) + EscapeEach(s[1..])
  }

  lemma {:induction false} ReplaceConcat(a: string, b: string, c: char, put: string)
    ensures Replace(a + b, c, put) == Replace(a, c, put) + Replace(b, c, put)
    decreases |a|
  {
    if a == [] {
      assert a + b == b;
    } else {
      assert (a + b)[1..] == a[1..] + b;
      ReplaceConcat(a[1..], b, c, put);
    }
  }

  /** The three whole-string replacements amount to one escape per character. */
  lemma {:induction false} EscapePerCharacter(s: string)
    ensures Escape(s) == EscapeEach(s)
    decreases |s|
  {
    if s != [] {
      var rest := s[1..];
      EscapePerCharacter(rest);
      var one := Replace([s[0]], '\\', "\\\\");
      assert s == [s[0]] + rest;
      ReplaceConcat([s[0]], rest, '\\', "\\\\");
      var more := Replace(rest, '\\', "\\\\");
      ReplaceConcat(one, more, '\n', "\\n");
      ReplaceConcat(Replace(one, '\n', "\\n"), Replace(more, '\n', "\\n"), '"', "\\\"");
      EscapeOne(s[0]);
    }
  }

  lemma ReplaceOne(c: char, d: char, put: string)
    ensures Replace([c], d, put) == if c == d then put else [c]
  {
    assert [c][1..] == [];
    assert Replace([], d, put) == [];
    assert put + [] == put;
  }

  lemma ReplacePair(a: char, b: char, c: char, put: string)
    requires a != c && b != c
    ensures Replace([a, b], c, put) == [a, b]
  {
    assert [a, b] == [a] + [b];
    ReplaceConcat([a], [b], c, put);
    ReplaceOne(a, c, put);
    ReplaceOne(b, c, put);
  }

  lemma EscapeOne(c: char)
    ensures Escape([c]) == EscapeChar(c)
  {
    hide Replace;
    ReplaceOne(c, '\\', "\\\\");
    ReplaceOne(c, '\n', "\\n");
    ReplaceOne(c, '"', "\\\"");
    ReplacePair('\\', '\\', '\n', "\\n");
    ReplacePair('\\', '\\', '"', "\\\"");
    ReplacePair('\\', 'n', '"', "\\\"");
  }

  function Quote(field: Option<string>): string {
    "\"" + Escape(if field.Some? then field.value else "") + "\""
  }

  /** A record's line, without the line end. */
  function Line(record: seq<Option<string>>): string {
    if record == [] then []
    else if |record| == 1 then Quote(record[0])
    else Line(record[..|record| - 1]) + "," + Quote(record[|record| - 1])
  }

  /** InsertRecord of the converter: each field quoted, separated by commas, then a line end. */
  method InsertRecord(record: seq<Option<string>>) returns (text: string)
    ensures text == Line(record) + "\r\n"
  {
    hide Quote;
    text := "";
    for i := 0 to |record|
      invariant text == Line(record[..i])
    {
      assert record[..i + 1][..i] == record[..i];
      if i > 0 {
        text := text + ",";
      }
      text := text + Quote(record[i]);
    }
    assert record[..|record|] == record;
    text := text + "\r\n";
  }

  // --- Parsing ---

  datatype Status = Done | BadEscape | Unterminated | TooManyCells

  /** The cells completed, and how the scan ended. */
  datatype Parsed = Parsed(cells: seq<string>, status: Status)

  function Unescape(c: char): char {
    if c == 'n' then '\n' else c
  }

  /** The scan outside quotes; `builder` holds the cell so far. */
  function Scan(line: string, builder: string): Parsed
    decreases |line|
  {
    if line == [] then Parsed([], Done)
    else if line[0] == '"' then Quoted(line[1..], builder, '"')
    else if line[0] == ',' then
      var p := Scan(line[1..], "");
      Parsed([builder] + p.cells, p.status)
    else Scan(line[1..], builder)
  }

  /** The scan inside quotes; `last` is the character last looked at, which is what the test
      for an unterminated quote looks at. */
  function Quoted(line: string, builder: string, last: char): Parsed
    decreases |line|
  {
    if line == [] then Parsed([], if last == '"' then Done else Unterminated)
    else if line[0] == '"' then Scan(line[1..], builder)
    else if line[0] == '\\' then
      if |line| == 1 then Parsed([], BadEscape)
      else Quoted(line[2..], builder + [Unescape(line[1])], line[1])
    else Quoted(line[1..], builder + [line[0]], line[0])
  }

  /** The cells that were there, overwritten by those completed. */
  function Stored(old_: seq<string>, cells: seq<string>): seq<string> {
    seq(|old_|, i requires 0 <= i < |old_| => if i < |cells| then cells[i] else old_[i])
  }

  /** The inner loop of LineToRecord, from just after an opening quote. */
  method ReadQuoted(line: string, start: nat, before: string) returns (i: nat, builder: string, status: Status)
    requires start <= |line|
    ensures start <= i <= |line|
    ensures Quoted(line[start..], before, '"')
            == if status != Done then Parsed([], status) else if i < |line| then Scan(line[i + 1..], builder) else Parsed([], Done)
  {
    i, builder := start, before;
    var ch := '"';
    while i < |line| && line[i] != '"'
      invariant start <= i <= |line|
      invariant Quoted(line[start..], before, '"') == Quoted(line[i..], builder, ch)
    {
      ch := line[i];
      if ch == '\\' {
        i := i + 1;
        if i >= |line| {
          return i, builder, BadEscape;
        }
        ch := line[i];
        assert line[i - 1..][2..] == line[i + 1..];
        builder := builder + [Unescape(ch)];
      } else {
        assert line[i..][1..] == line[i + 1..];
        builder := builder + [ch];
      }
      i := i + 1;
    }
    if i < |line| {
      assert line[i..][1..] == line[i + 1..];
      ch := '"';
    }
    status := if ch != '"' then Unterminated else Done;
  }

  function From(line: string, i: nat): string {
    if i <= |line| then line[i..] else []
  }

  /** The scan of the whole line is the cells done and the scan of the rest. */
  ghost predicate Scanning(line: string, done: seq<string>, i: nat, builder: string) {
    var p := Scan(From(line, i), builder);
    Scan(line, "") == Parsed(done + p.cells, p.status)
  }

  lemma ScanComma(line: string, done: seq<string>, i: nat, builder: string)
    requires i < |line| && line[i] == ',' && Scanning(line, done, i, builder)
    ensures Scanning(line, done + [builder], i + 1, "")
  {
    assert From(line, i)[1..] == From(line, i + 1);
    Collections.Assoc(done, [builder], Scan(From(line, i + 1), "").cells);
  }

  lemma ScanOther(line: string, done: seq<string>, i: nat, builder: string)
    requires i < |line| && line[i] != ',' && line[i] != '"' && Scanning(line, done, i, builder)
    ensures Scanning(line, done, i + 1, builder)
  {
    assert From(line, i)[1..] == From(line, i + 1);
  }

  lemma ScanQuote(line: string, done: seq<string>, i: nat, builder: string)
    requires i < |line| && line[i] == '"' && Scanning(line, done, i, builder)
    ensures var p := Quoted(line[i + 1..], builder, '"');
            Scan(line, "") == Parsed(done + p.cells, p.status)
  {
    assert From(line, i)[1..] == line[i + 1..];
  }

  lemma ScanEnd(line: string, done: seq<string>, i: nat, builder: string)
    requires i >= |line| && Scanning(line, done, i, builder)
    ensures Scan(line, "") == Parsed(done, Done)
  {
    assert From(line, i) == [];
    assert done + [] == done;
  }

  lemma StoreOne(before: seq<string>, done: seq<string>, cell: string)
    requires |done| < |before|
    ensures Stored(before, done + [cell]) == Stored(before, done)[|done| := cell]
  {
  }

  lemma StoreMore(before: seq<string>, done: seq<string>, more: seq<string>)
    requires |done| == |before|
    ensures Stored(before, done + more) == Stored(before, done)
  {
  }

  /** One quoted stretch of the scan. */
  method ScanQuoted(line: string, ghost done: seq<string>, start: nat, before: string) returns (i: nat, builder: string, status: Status)
    requires start < |line| && line[start] == '"' && Scanning(line, done, start, before)
    ensures i > start
    ensures if status == Done then Scanning(line, done, i, builder) else Scan(line, "") == Parsed(done, status)
  {
    hide Scan, Quoted;
    ScanQuote(line, done, start, before);
    i, builder, status := ReadQuoted(line, start + 1, before);
    i := i + 1;
    if status == Done {
      if i > |line| {
        NothingToScan(builder);
      }
    } else {
      assert done + [] == done;
    }
  }

  lemma NothingToScan(builder: string)
    ensures Scan([], builder) == Parsed([], Done)
  {
  }

  /** LineToRecord: a cell is stored when the comma after it is met, so the last one never is,
      and cells not stored keep what the previous line left there. */
  method LineToRecord(line: string, record: array<string>) returns (status: Status)
    modifies record
    ensures var p := Scan(line, "");
            && status == (if |p.cells| > record.Length then TooManyCells else p.status)
            && record[..] == Stored(old(record[..]), p.cells)
  {
    hide Scan, Quoted, Scanning, Stored;
    var i: nat, cell: nat, builder := 0, 0, "";
    ghost var was := record[..];
    ghost var done: seq<string> := [];
    StartScan(line, was);
    while i < |line|
      invariant Scanning(line, done, i, builder)
      invariant cell == |done| <= record.Length && record[..] == Stored(was, done)
      decreases |line| - i
    {
      if line[i] == '"' {
        i, builder, status := ScanQuoted(line, done, i, builder);
        if status != Done {
          return;
        }
      } else if line[i] == ',' {
        ScanComma(line, done, i, builder);
        if cell >= record.Length {
          Overrun(line, was, done, i + 1, builder);
          status := TooManyCells;
          return;
        }
        StoreOne(was, done, builder);
        record[cell] := builder;
        done := done + [builder];
        cell := cell + 1;
        builder := "";
        i := i + 1;
      } else {
        ScanOther(line, done, i, builder);
        i := i + 1;
      }
    }
    ScanEnd(line, done, i, builder);
    status := Done;
  }

  lemma StartScan(line: string, was: seq<string>)
    ensures Scanning(line, [], 0, "") && Stored(was, []) == was
  {
    assert From(line, 0) == line;
  }

  lemma Overrun(line: string, was: seq<string>, done: seq<string>, i: nat, builder: string)
    requires Scanning(line, done + [builder], i, "") && |done| == |was|
    ensures |Scan(line, "").cells| > |was| && Stored(was, Scan(line, "").cells) == Stored(was, done)
  {
    hide Scan, Stored;
    var more := Scan(From(line, i), "").cells;
    Collections.Assoc(done, [builder], more);
    StoreMore(was, done, [builder] + more);
  }

  // --- Round trip ---

  /** The text of a field, null being empty. */
  function Text(field: Option<string>): string {
    if field.Some? then field.value else ""
  }

  function Texts(record: seq<Option<string>>): seq<string> {
    seq(|record|, i requires 0 <= i < |record| => Text(record[i]))
  }

  lemma {:induction false} QuotedEscape(s: string, rest: string, builder: string, last: char)
    ensures Quoted(EscapeEach(s) + "\"" + rest, builder, last) == Scan(rest, builder + s)
    decreases |s|
  {
    if s == [] {
      assert (EscapeEach(s) + "\"" + rest)[1..] == rest;
      assert builder + s == builder;
    } else {
      var c, more := s[0], EscapeEach(s[1..]) + "\"" + rest;
      var line := EscapeEach(s) + "\"" + rest;
      assert line == EscapeChar(c) + more;
      assert builder + s == (builder + [c]) + s[1..];
      if |EscapeChar(c)| == 2 {
        assert line[2..] == more && line[0] == '\\' && Unescape(line[1]) == c;
        QuotedEscape(s[1..], rest, builder + [c], line[1]);
      } else {
        assert line[1..] == more && line[0] == c;
        QuotedEscape(s[1..], rest, builder + [c], c);
      }
    }
  }

  lemma ScanField(field: Option<string>, rest: string)
    ensures Scan(Quote(field) + rest, "") == Scan(rest, Text(field))
  {
    var s := Text(field);
    EscapePerCharacter(s);
    var line := Quote(field) + rest;
    assert line[1..] == EscapeEach(s) + "\"" + rest;
    QuotedEscape(s, rest, "", '"');
    assert "" + s == s;
  }

  /** The cells of a line that goes on after a record. */
  lemma {:induction false} ScanRecord(record: seq<Option<string>>, rest: string)
    requires record != []
    ensures var n := |record| - 1;
            var p := Scan(rest, Text(record[n]));
            Scan(Line(record) + rest, "") == Parsed(Texts(record[..n]) + p.cells, p.status)
    decreases |record|
  {
    hide Scan, Quote;
    var n := |record| - 1;
    var p := Scan(rest, Text(record[n]));
    if n == 0 {
      ScanField(record[0], rest);
      assert Texts(record[..0]) == [] && [] + p.cells == p.cells;
    } else {
      var tail := "," + Quote(record[n]) + rest;
      assert Line(record) + rest == Line(record[..n]) + tail;
      ScanRecord(record[..n], tail);
      ScanField(record[n], rest);
      ScanSeparator(Quote(record[n]) + rest, Text(record[n - 1]));
      assert tail == "," + (Quote(record[n]) + rest);
      assert Texts(record[..n]) == Texts(record[..n][..n - 1]) + [Text(record[n - 1])];
      Collections.Assoc(Texts(record[..n][..n - 1]), [Text(record[n - 1])], p.cells);
    }
  }

  lemma ScanSeparator(rest: string, builder: string)
    ensures var p := Scan(rest, "");
            Scan("," + rest, builder) == Parsed([builder] + p.cells, p.status)
  {
    assert ("," + rest)[1..] == rest;
  }

  /** Parsing a printed record raises no error and recovers every field but the last. */
  lemma LineRoundTrip(record: seq<Option<string>>)
    requires record != []
    ensures Scan(Line(record), "") == Parsed(Texts(record[..|record| - 1]), Done)
  {
    hide Scan, Line;
    ScanRecord(record, "");
    assert Line(record) + "" == Line(record);
    NothingToScan(Text(record[|record| - 1]));
    assert Texts(record[..|record| - 1]) + [] == Texts(record[..|record| - 1]);
  }

  /** A line that ends inside quotes: an error, except right after the opening quote, where the
      test for the end looks at that quote. */
  lemma UnclosedQuote(text: string)
    requires forall i :: 0 <= i < |text| ==> text[i] != '"' && text[i] != '\\'
    ensures Scan("\"" + text, "") == Parsed([], if text == [] then Done else Unterminated)
  {
    assert ("\"" + text)[1..] == text;
    UnclosedRest(text, "", '"');
  }

  lemma {:induction false} UnclosedRest(text: string, builder: string, last: char)
    requires forall i :: 0 <= i < |text| ==> text[i] != '"' && text[i] != '\\'
    ensures Quoted(text, builder, last) == Parsed([], if text == [] && last == '"' then Done else Unterminated)
    decreases |text|
  {
    if text != [] {
      UnclosedRest(text[1..], builder + [text[0]], text[0]);
    }
  }

  /** A line that ends in a backslash inside quotes is a bad escape. */
  lemma {:induction false} EscapeAtEnd(text: string, builder: string, last: char)
    requires forall i :: 0 <= i < |text| ==> text[i] != '"' && text[i] != '\\'
    ensures Quoted(text + "\\", builder, last) == Parsed([], BadEscape)
    decreases |text|
  {
    if text != [] {
      assert (text + "\\")[1..] == text[1..] + "\\";
      EscapeAtEnd(text[1..], builder + [text[0]], text[0]);
    } else {
      assert text + "\\" == "\\";
    }
  }

  /** Outside quotes everything but commas and quotes is passed over. */
  lemma {:induction false} OutsideIgnored(text: string, rest: string, builder: string)
    requires forall i :: 0 <= i < |text| ==> text[i] != '"' && text[i] != ','
    ensures Scan(text + rest, builder) == Scan(rest, builder)
    decreases |text|
  {
    if text == [] {
      assert text + rest == rest;
    } else {
      assert (text + rest)[1..] == text[1..] + rest;
      OutsideIgnored(text[1..], rest, builder);
    }
  }
}
