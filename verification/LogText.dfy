/** The text format the log writer really uses: formatted integers with nothing in between. */
module LogText {
  import opened Options
  import opened LogRecords

  /** Decimal digits, as `stream << n` prints a natural number. */
  function Digits(n: nat): (r: string)
    ensures r != [] && forall i :: 0 <= i < |r| ==> IsDigit(r[i])
  {
    if n < 10 then [('0' as int + n) as char] else Digits(n / 10) + [('0' as int + n % 10) as char]
  }

  function Print(n: int): string {
    if n < 0 then "-" + Digits(-n) else Digits(n)
  }

  function PrintAll(ns: seq<int>): string {
    if ns == [] then [] else Print(ns[0]) + PrintAll(ns[1..])
  }

  function Pairs(revs: seq<ColumnRevision>): seq<int> {
    if revs == [] then [] else [revs[0].column, revs[0].revision] + Pairs(revs[1..])
  }

  /** The integers written after the type; a revision's payload follows them. */
  function Fields(r: Record): (ns: seq<int>)
    ensures ns != []
  {
    match r
    case Begin(t, stamp, revs) => [t, stamp, |revs|] + Pairs(revs)
    case End(t, stamp) => [t, stamp]
    case Revision(c, v, stamp, data) => [c, v, stamp, |data|]
    case Checkpoint(c, v, stamp) => [c, v, stamp]
    case Rollback(t, stamp) => [t, stamp]
  }

  function Text(r: Record): string {
    Print(TypeOf(r)) + PrintAll(Fields(r))
  }

  // --- Reading ---

  predicate IsDigit(c: char) {
    '0' <= c <= '9'
  }

  /** The digits `stream >> n` takes: as many as follow. */
  function Leading(s: string): (r: string)
    ensures forall i :: 0 <= i < |r| ==> IsDigit(r[i])
  {
    if s == [] || !IsDigit(s[0]) then [] else [s[0]] + Leading(s[1..])
  }

  function NatOf(ds: string): nat
    requires forall i :: 0 <= i < |ds| ==> IsDigit(ds[i])
  {
    if ds == [] then 0
    else
      var last := ds[|ds| - 1];
      assert IsDigit(last);
      10 * NatOf(ds[..|ds| - 1]) + (last as int - '0' as int)
  }

  predicate IsSpace(c: char) {
    c == ' ' || c == '\t' || c == '\n' || c == '\r' || c as int == 11 || c as int == 12
  }

  function SkipSpace(s: string): string {
    if s != [] && IsSpace(s[0]) then SkipSpace(s[1..]) else s
  }

  const INT32: int := 0x8000_0000
  const INT64: int := 0x8000_0000_0000_0000

  datatype Got = Got(n: int, rest: string)

  /** `stream >> n` of a signed integer from -limit up to limit - 1.  None stands for a failed
      read, after which every further read fails: no digit, or too large a number. */
  function ReadInt(s: string, limit: int): Option<Got> {
    var t := SkipSpace(s);
    var u := if t != [] && (t[0] == '-' || t[0] == '+') then t[1..] else t;
    var ds := Leading(u);
    var n := if t != [] && t[0] == '-' then 0 - NatOf(ds) else NatOf(ds);
    if ds == [] || !(-limit <= n < limit) then None
    else
      LeadingPrefix(u);
      Some(Got(n, u[|ds|..]))
  }

  datatype GotAll = GotAll(ns: seq<int>, rest: string)

  function ReadInts(s: string, limits: seq<int>): (r: Option<GotAll>)
    ensures r.Some? ==> |r.value.ns| == |limits|
    decreases |limits|
  {
    if limits == [] then Some(GotAll([], s))
    else
      var first := ReadInt(s, limits[0]);
      if first.None? then None
      else
        var more := ReadInts(first.value.rest, limits[1..]);
        if more.None? then None else Some(GotAll([first.value.n] + more.value.ns, more.value.rest))
  }

  /** The integers that are read after the type, as wide as their variables; a begin record's
      pairs come in addition. */
  function Limits(kind: int): seq<int> {
    if kind == TYPE_BEGIN then [INT64, INT64, INT32]
    else if kind == TYPE_END || kind == TYPE_ROLLBACK then [INT64, INT64]
    else if kind == TYPE_REVISION then [INT64, INT64, INT64, INT32]
    else if kind == TYPE_CHECKPOINT then [INT64, INT64, INT64]
    else []
  }

  datatype Printed = Printed(kind: int, fields: seq<int>)

  /** readNextRecordType and the read function of that type, up to a revision's payload. */
  function ReadRecord(s: string): Option<Printed> {
    var kind := ReadInt(s, INT32);
    if kind.None? then None
    else
      var fixed := ReadInts(kind.value.rest, Limits(kind.value.n));
      if fixed.None? then None
      else if kind.value.n != TYPE_BEGIN then Some(Printed(kind.value.n, fixed.value.ns))
      else
        var count := if fixed.value.ns[2] > 0 then 2 * fixed.value.ns[2] else 0;
        var pairs := ReadInts(fixed.value.rest, seq(count, i => INT64));
        if pairs.None? then None else Some(Printed(kind.value.n, fixed.value.ns + pairs.value.ns))
  }

  lemma {:induction false} LeadingPrefix(s: string)
    ensures Leading(s) <= s
  {
    if s != [] && IsDigit(s[0]) {
      LeadingPrefix(s[1..]);
      assert s == [s[0]] + s[1..];
    }
  }

  lemma {:induction false} LeadingConcat(a: string, b: string)
    requires forall i :: 0 <= i < |a| ==> IsDigit(a[i])
    ensures Leading(a + b) == a + Leading(b)
    decreases |a|
  {
    if a == [] {
      assert a + b == b;
    } else {
      assert (a + b)[1..] == a[1..] + b;
      LeadingConcat(a[1..], b);
    }
  }

  lemma {:induction false} NatOfDigits(n: nat)
    ensures NatOf(Digits(n)) == n
    decreases n
  {
    if n >= 10 {
      NatOfDigits(n / 10);
      assert Digits(n)[..|Digits(n)| - 1] == Digits(n / 10);
    } else {
      assert Digits(n)[..0] == [];
    }
  }

  /** More digits make a larger number. */
  lemma {:induction false} NatOfLonger(a: string, b: string)
    requires forall i :: 0 <= i < |a| ==> IsDigit(a[i])
    requires forall i :: 0 <= i < |b| ==> IsDigit(b[i])
    ensures forall i :: 0 <= i < |a + b| ==> IsDigit((a + b)[i])
    ensures NatOf(a + b) >= NatOf(a) && (b != [] && NatOf(a) > 0 ==> NatOf(a + b) > NatOf(a))
    decreases |b|
  {
    if b == [] {
      assert a + b == a;
    } else {
      NatOfLonger(a, b[..|b| - 1]);
      assert (a + b)[..|a + b| - 1] == a + b[..|b| - 1];
    }
  }

  predicate DigitFirst(s: string) {
    s != [] && IsDigit(s[0])
  }

  lemma PrintFirst(n: int, rest: string)
    ensures Print(n) + rest != [] && ((Print(n) + rest)[0] == '-' <==> n < 0)
    ensures DigitFirst(Print(n) + rest) <==> n >= 0
    ensures SkipSpace(Print(n) + rest) == Print(n) + rest
  {
    assert n >= 0 ==> IsDigit(Digits(n)[0]) && (Digits(n) + rest)[0] == Digits(n)[0];
  }

  /** A printed number is followed by something: the read takes all digits there are. */
  lemma ReadPrinted(n: int, rest: string, limit: int)
    ensures var ds := Digits(if n < 0 then -n else n) + Leading(rest);
            && (forall i :: 0 <= i < |ds| ==> IsDigit(ds[i]))
            && var m := if n < 0 then 0 - NatOf(ds) else NatOf(ds);
               var r := ReadInt(Print(n) + rest, limit);
               && (r.Some? <==> -limit <= m < limit)
               && (r.Some? ==> r.value.n == m)
               && (r.Some? && !DigitFirst(rest) ==> r.value.rest == rest)
  {
    hide Digits, NatOf;
    var s := Print(n) + rest;
    var a := Digits(if n < 0 then -n else n);
    PrintFirst(n, rest);
    LeadingConcat(a, rest);
    if n < 0 {
      assert s[1..] == a + rest;
    } else {
      assert s == a + rest;
      assert IsDigit(s[0]);
    }
    if !DigitFirst(rest) {
      assert Leading(rest) == [];
      assert a + [] == a && (a + rest)[|a|..] == rest;
    }
  }

  /** A number other than zero reads back exactly if no digit follows it. */
  lemma ReadsBackIff(n: int, rest: string, limit: int)
    requires n != 0 && -limit <= n < limit
    ensures var r := ReadInt(Print(n) + rest, limit);
            && (r.Some? && r.value.n == n <==> !DigitFirst(rest))
            && (!DigitFirst(rest) ==> r == Some(Got(n, rest)))
  {
    hide Digits, NatOf, ReadInt;
    var a := Digits(if n < 0 then -n else n);
    ReadPrinted(n, rest, limit);
    NatOfDigits(if n < 0 then -n else n);
    if DigitFirst(rest) {
      NatOfLonger(a, Leading(rest));
    } else {
      assert Leading(rest) == [];
      assert a + [] == a;
    }
  }

  lemma PrintAllFirst(ns: seq<int>, tail: string)
    requires ns != []
    ensures PrintAll(ns) + tail == Print(ns[0]) + (PrintAll(ns[1..]) + tail)
    ensures DigitFirst(PrintAll(ns) + tail) <==> ns[0] >= 0
  {
    hide Print;
    assert Print(ns[0]) + PrintAll(ns[1..]) + tail == Print(ns[0]) + (PrintAll(ns[1..]) + tail);
    PrintFirst(ns[0], PrintAll(ns[1..]) + tail);
  }

  ghost predicate AllNegative(ns: seq<int>) {
    forall i :: 0 <= i < |ns| ==> ns[i] < 0
  }

  /** Several numbers, the first of them negative, read back exactly if all are negative, so
      that each sign ends the number before, and no digit follows. */
  lemma {:induction false} AllReadBackIff(ns: seq<int>, limits: seq<int>, tail: string)
    requires |ns| == |limits| && ns != [] && ns[0] < 0
    requires forall i :: 0 <= i < |ns| && ns[i] < 0 ==> -limits[i] <= ns[i]
    ensures var r := ReadInts(PrintAll(ns) + tail, limits);
            r.Some? && r.value.ns == ns <==> AllNegative(ns) && !DigitFirst(tail)
    decreases |ns|
  {
    hide ReadInt, Print, PrintAll, DigitFirst;
    var rest := PrintAll(ns[1..]) + tail;
    PrintAllFirst(ns, tail);
    ReadsBackIff(ns[0], rest, limits[0]);
    var r := ReadInts(PrintAll(ns) + tail, limits);
    assert ns == [ns[0]] + ns[1..];
    if |ns| == 1 {
      NothingPrinted(tail);
      assert ns[1..] == [] && limits[1..] == [];
    } else {
      PrintAllFirst(ns[1..], tail);
      if ns[1] < 0 {
        AllReadBackIff(ns[1..], limits[1..], tail);
        NegativeTail(ns);
      }
    }
    if r.Some? {
      assert r.value.ns[0] == ReadInt(PrintAll(ns) + tail, limits[0]).value.n;
      assert r.value.ns[1..] == ReadInts(ReadInt(PrintAll(ns) + tail, limits[0]).value.rest, limits[1..]).value.ns;
    }
  }

  lemma NothingPrinted(tail: string)
    ensures PrintAll([]) + tail == tail
  {
  }

  lemma NegativeTail(ns: seq<int>)
    requires ns != []
    ensures AllNegative(ns) <==> ns[0] < 0 && AllNegative(ns[1..])
  {
    if AllNegative(ns[1..]) && ns[0] < 0 {
      forall i | 0 <= i < |ns| ensures ns[i] < 0 {
        if i > 0 {
          assert ns[1..][i - 1] < 0;
        }
      }
    }
  }

  /** For every record, whatever follows it in the file: the reader gets back the type that
      was written exactly if the next field is negative, so that its sign ends the number. */
  lemma TypeReadsBackIff(r: Record, tail: string)
    ensures var kind := ReadInt(Text(r) + tail, INT32);
            && (kind.Some? && kind.value.n == TypeOf(r) <==> Fields(r)[0] < 0)
            && (Fields(r)[0] < 0 ==> kind == Some(Got(TypeOf(r), PrintAll(Fields(r)) + tail)))
  {
    hide ReadInt, Print, PrintAll, DigitFirst, Fields;
    assert Text(r) + tail == Print(TypeOf(r)) + (PrintAll(Fields(r)) + tail);
    ReadsBackIff(TypeOf(r), PrintAll(Fields(r)) + tail, INT32);
    PrintAllFirst(Fields(r), tail);
  }

  /** Every record, whatever follows it in the file: all its integers read back exactly if
      every field is negative and no digit follows. */
  lemma RecordReadsBackIff(r: Record, tail: string)
    requires Storable(r)
    ensures ReadRecord(Text(r) + tail) == Some(Printed(TypeOf(r), Fields(r)))
            <==> AllNegative(Fields(r)) && !DigitFirst(tail)
  {
    hide ReadInt, ReadInts, Print, PrintAll, DigitFirst, Text;
    TypeReadsBackIff(r, tail);
    if Fields(r)[0] < 0 {
      if r.Begin? {
        CountEndsBadly(r, tail);
      } else {
        AllReadBackIff(Fields(r), Limits(TypeOf(r)), tail);
      }
    }
  }

  /** The number of a begin record's revisions is never negative: it runs into the stamp. */
  lemma CountEndsBadly(r: Record, tail: string)
    requires Storable(r) && r.Begin? && Fields(r)[0] < 0
    ensures var fixed := ReadInts(PrintAll(Fields(r)) + tail, Limits(TYPE_BEGIN));
            fixed.Some? ==> fixed.value.ns != Fields(r)[..3]
    ensures !AllNegative(Fields(r))
  {
    hide ReadInt, ReadInts, Print, PrintAll, DigitFirst;
    var three, pairs := [r.transaction, r.stamp, |r.revisions|], Pairs(r.revisions);
    PrintAllConcat(three, pairs);
    assert PrintAll(Fields(r)) + tail == PrintAll(three) + (PrintAll(pairs) + tail);
    AllReadBackIff(three, Limits(TYPE_BEGIN), PrintAll(pairs) + tail);
    assert Fields(r)[2] >= 0 && three[2] >= 0;
  }

  lemma {:induction false} PrintAllConcat(a: seq<int>, b: seq<int>)
    ensures PrintAll(a + b) == PrintAll(a) + PrintAll(b)
    decreases |a|
  {
    hide Print;
    if a == [] {
      assert a + b == b;
    } else {
      assert (a + b)[1..] == a[1..] + b;
      PrintAllConcat(a[1..], b);
    }
  }

  /** So no begin and no revision record ever reads back. */
  lemma CountedNeverReadsBack(r: Record, tail: string)
    requires Storable(r) && (r.Begin? || r.Revision?)
    ensures ReadRecord(Text(r) + tail) != Some(Printed(TypeOf(r), Fields(r)))
  {
    hide ReadRecord, Text;
    RecordReadsBackIff(r, tail);
    assert r.Begin? ==> Fields(r)[2] == |r.revisions|;
    assert r.Revision? ==> Fields(r)[3] == |r.data|;
  }

  /** Different records print alike: column 1 at revision 23 and column 12 at revision 3. */
  lemma RecordsPrintAlike(stamp: int)
    ensures Text(Checkpoint(1, 23, stamp)) == Text(Checkpoint(12, 3, stamp))
  {
    PrintThree(1, 23, stamp);
    PrintThree(12, 3, stamp);
    assert Digits(23) == Digits(2) + Digits(3) && Digits(12) == Digits(1) + Digits(2);
    hide Digits;
    assert Digits(1) + (Digits(2) + Digits(3)) == (Digits(1) + Digits(2)) + Digits(3);
  }

  lemma PrintThree(a: int, b: int, c: int)
    ensures PrintAll([a, b, c]) == Print(a) + Print(b) + Print(c)
  {
    hide Print;
    assert [a, b, c][1..] == [b, c] && [b, c][1..] == [c] && [c][1..] == [];
    assert PrintAll([c]) == Print(c) + PrintAll([]);
    assert PrintAll([b, c]) == Print(b) + Print(c);
  }
}
