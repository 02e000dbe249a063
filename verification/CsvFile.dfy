/** Files of printed records, read back line by line. */
module CsvFile {
  import opened Options
  import opened Csv

  predicate Breaks(c: char) {
    c == '\r' || c == '\n'
  }

  /** The end of the first line. */
  function LineEnd(text: string): (k: nat)
    ensures k <= |text| && (k < |text| ==> Breaks(text[k]))
    ensures forall i :: 0 <= i < k ==> !Breaks(text[i])
  {
    if text == [] || Breaks(text[0]) then 0 else 1 + LineEnd(text[1..])
  }

  /** ReadLine until the end: a line ends at a return, a newline, or both. */
  function ReadLines(text: string): seq<string>
    decreases |text|
  {
    if text == [] then []
    else
      var k := LineEnd(text);
      if k == |text| then [text]
      else
        var n := if text[k] == '\r' && k + 1 < |text| && text[k + 1] == '\n' then k + 2 else k + 1;
        [text[..k]] + ReadLines(text[n..])
  }

  function File(rs: seq<seq<Option<string>>>): string {
    if rs == [] then "" else Line(rs[0]) + ("\r\n" + File(rs[1..]))
  }

  function Lines(rs: seq<seq<Option<string>>>): seq<string> {
    seq(|rs|, i requires 0 <= i < |rs| => Line(rs[i]))
  }

  /** No field has a carriage return, the one line break the printer does not escape. */
  ghost predicate NoReturn(r: seq<Option<string>>) {
    forall i :: 0 <= i < |r| ==> '\r' !in Text(r[i])
  }

  lemma {:induction false} EscapedBreaks(s: string)
    ensures '\n' !in EscapeEach(s) && ('\r' in EscapeEach(s) <==> '\r' in s)
    decreases |s|
  {
    if s != [] {
      EscapedBreaks(s[1..]);
      assert s == [s[0]] + s[1..];
      assert '\n' !in EscapeChar(s[0]) && ('\r' in EscapeChar(s[0]) <==> '\r' == s[0]);
    }
  }

  lemma QuoteBreaks(field: Option<string>)
    ensures '\n' !in Quote(field) && ('\r' in Quote(field) <==> '\r' in Text(field))
  {
    EscapePerCharacter(Text(field));
    EscapedBreaks(Text(field));
  }

  lemma {:induction false} LineBreaks(r: seq<Option<string>>)
    ensures '\n' !in Line(r) && ('\r' in Line(r) <==> !NoReturn(r))
    decreases |r|
  {
    hide Quote;
    if r != [] {
      var n := |r| - 1;
      QuoteBreaks(r[n]);
      if n > 0 {
        LineBreaks(r[..n]);
      }
      assert NoReturn(r) <==> NoReturn(r[..n]) && '\r' !in Text(r[n]) by {
        assert forall i :: 0 <= i < n ==> r[..n][i] == r[i];
      }
    }
  }

  lemma ReadUnbroken(line: string, rest: string)
    requires forall i :: 0 <= i < |line| ==> !Breaks(line[i])
    ensures ReadLines(line + ("\r\n" + rest)) == [line] + ReadLines(rest)
  {
    hide LineEnd;
    var text := line + ("\r\n" + rest);
    var k := LineEnd(text);
    assert text[|line|] == '\r' && text[|line| + 1] == '\n';
    assert k == |line|;
    assert text[..k] == line && text[k + 2..] == rest;
  }

  lemma ReadBroken(line: string, rest: string, i: nat)
    requires i < |line| && Breaks(line[i])
    ensures ReadLines(line + rest) != [] && |ReadLines(line + rest)[0]| < |line|
  {
    hide LineEnd;
    var text := line + rest;
    assert text[i] == line[i];
    assert LineEnd(text) <= i;
  }

  /** The first line read from a file that starts with a record. */
  lemma FirstLine(r: seq<Option<string>>, rest: string)
    ensures var text := Line(r) + ("\r\n" + rest);
            && (NoReturn(r) ==> ReadLines(text) == [Line(r)] + ReadLines(rest))
            && (!NoReturn(r) ==> ReadLines(text) != [] && |ReadLines(text)[0]| < |Line(r)|)
  {
    hide ReadLines, Line, NoReturn;
    LineBreaks(r);
    var line := Line(r);
    if NoReturn(r) {
      assert forall i :: 0 <= i < |line| ==> line[i] in line;
      ReadUnbroken(line, rest);
    } else {
      var i :| 0 <= i < |line| && line[i] == '\r';
      ReadBroken(line, "\r\n" + rest, i);
    }
  }

  /** Reading a file of records gives their lines exactly if no field has a carriage return. */
  lemma {:induction false} FileRoundTripIff(rs: seq<seq<Option<string>>>)
    ensures ReadLines(File(rs)) == Lines(rs) <==> forall i :: 0 <= i < |rs| ==> NoReturn(rs[i])
    decreases |rs|
  {
    hide ReadLines, Line, NoReturn;
    if rs == [] {
      NoLines();
    } else {
      FirstLine(rs[0], File(rs[1..]));
      FileRoundTripIff(rs[1..]);
      assert Lines(rs) == [Line(rs[0])] + Lines(rs[1..]);
      assert Lines(rs)[1..] == Lines(rs[1..]);
      assert forall i :: 0 < i < |rs| ==> rs[i] == rs[1..][i - 1];
      if NoReturn(rs[0]) {
        assert ReadLines(File(rs))[1..] == ReadLines(File(rs[1..]));
      } else {
        assert Lines(rs)[0] == Line(rs[0]);
      }
    }
  }

  lemma NoLines()
    ensures ReadLines("") == []
  {
  }

  /** A field of one carriage return splits the record's line in two. */
  lemma ReturnSplitsLine()
    ensures var r := [Some("\r")];
            ReadLines(File([r])) != Lines([r])
  {
    var r := [Some("\r")];
    hide ReadLines, Line;
    assert '\r' in Text(r[0]) && !NoReturn(r);
    assert [r][0] == r;
    FileRoundTripIff([r]);
  }
}
