/** Character sets as written in config specs: the scanner, its printer and the sampler. */
module CharSets {
  import opened Common

  datatype Range = Range(start: char, end: char, count: nat)

  datatype CharSet = CharSet(ranges: seq<Range>, total: nat)

  const DEFAULT := CharSet([Range('!', '~', 94)], 94)

  predicate IsAscii(c: char) {
    c as int < 128
  }

  predicate InRange(r: Range, c: char) {
    r.start <= c <= r.end
  }

  predicate Contains(s: CharSet, c: char) {
    exists i :: 0 <= i < |s.ranges| && InRange(s.ranges[i], c)
  }

  // ----- printing

  function PrintRange(r: Range): string {
    if r.count == 1 then [r.start] else [r.start, '-', r.end]
  }

  function PrintRanges(rs: seq<Range>): string {
    if |rs| == 0 then ""
    else if |rs| == 1 then PrintRange(rs[0])
    else PrintRanges(rs[..|rs| - 1]) + "," + PrintRange(rs[|rs| - 1])
  }

  function Print(s: CharSet): string {
    PrintRanges(s.ranges)
  }

  // ----- scanning, one character at a time

  datatype Scan = Scan(ranges: seq<Range>, len: nat, a: Option<char>, b: Option<char>, inRange: bool)

  const FRESH := Scan([], 0, None, None, false)

  /** Closes the range from start to end. */
  function Close(s: Scan, start: char, end: char): Result<Scan> {
    if !IsAscii(end) then Err(Fault("Invalid Character"))
    else if start >= end then Err(Fault("Invalid Bounds"))
    else
      var l := end as int - start as int + 1;
      Ok(Scan(s.ranges + [Range(start, end, l)], s.len + l, None, None, false))
  }

  function ScanComma(s: Scan): Result<Scan> {
    match (s.a, s.b, s.inRange)
    case (Some(start), Some(end), _) => Close(s, start, end)
    case (Some(start), None, false) => Ok(s.(ranges := s.ranges + [Range(start, start, 1)], len := s.len + 1, a := None))
    case (Some(_), None, true) => Ok(s.(b := Some(',')))
    case (None, None, false) => Ok(s.(a := Some(',')))
    case _ => Err(Fault("Syntax Error"))
  }

  function ScanDash(s: Scan): Result<Scan> {
    if s.a.None? then Ok(s.(a := Some('-')))
    else if !s.inRange then Ok(s.(inRange := true))
    else if s.b.None? then Ok(s.(b := Some('-')))
    else Err(Fault("Syntax Error"))
  }

  function ScanOther(s: Scan, c: char): Result<Scan> {
    if s.a.None? then Ok(s.(a := Some(c)))
    else if s.inRange && s.b.None? then Ok(s.(b := Some(c)))
    else Err(Fault("Syntax Error"))
  }

  function ScanChar(s: Scan, c: char): Result<Scan> {
    if c == ',' then ScanComma(s) else if c == '-' then ScanDash(s) else ScanOther(s, c)
  }

  /** The first n characters of the text. */
  function ScanFirst(s: Scan, text: string, n: nat): Result<Scan>
    requires n <= |text|
  {
    if n == 0 then Ok(s)
    else match ScanFirst(s, text, n - 1)
         case Ok(t) => ScanChar(t, text[n - 1])
         case Err(e) => Err(e)
  }

  function ScanAll(s: Scan, text: string): Result<Scan> {
    ScanFirst(s, text, |text|)
  }

  function Finish(s: Scan): Result<CharSet> {
    match (s.a, s.b)
    case (Some(start), Some(end)) => (
      match Close(s, start, end)
      case Ok(t) => Ok(CharSet(t.ranges, t.len))
      case Err(e) => Err(e)
    )
    case (Some(c), None) => Ok(CharSet(s.ranges + [Range(c, c, 1)], s.len + 1))
    case _ => Ok(CharSet(s.ranges, s.len))
  }

  function Parsed(text: string): Result<CharSet> {
    match ScanAll(FRESH, text)
    case Ok(s) => Finish(s)
    case Err(e) => Err(e)
  }

  /** The scanner as the loop it is. */
  method Parse(text: string) returns (r: Result<CharSet>)
    ensures r == Parsed(text)
    ensures r.Ok? ==> WellFormed(r.value)
  {
    var ranges: seq<Range>, len: nat := [], 0;
    var a, b: Option<char> := None, None;
    var inRange := false;
    for i := 0 to |text|
      invariant ScanFirst(FRESH, text, i) == Ok(Scan(ranges, len, a, b, inRange))
    {
      var c := text[i];
      assert ScanFirst(FRESH, text, i + 1) == ScanChar(Scan(ranges, len, a, b, inRange), c);
      Refused(text, i + 1);
      if c == ',' {
        match (a, b, inRange) {
          case (Some(start), Some(end), _) =>
            if !IsAscii(end) {
              return Err(Fault("Invalid Character"));
            }
            if start >= end {
              return Err(Fault("Invalid Bounds"));
            }
            var l := end as int - start as int + 1;
            ranges, len := ranges + [Range(start, end, l)], len + l;
            a, b, inRange := None, None, false;
          case (Some(start), None, false) =>
            ranges, len := ranges + [Range(start, start, 1)], len + 1;
            a := None;
          case (Some(_), None, true) => b := Some(',');
          case (None, None, false) => a := Some(',');
          case _ => return Err(Fault("Syntax Error"));
        }
      } else if c == '-' {
        if a.None? {
          a := Some('-');
        } else if !inRange {
          inRange := true;
        } else if b.None? {
          b := Some('-');
        } else {
          return Err(Fault("Syntax Error"));
        }
      } else {
        if a.None? {
          a := Some(c);
        } else if inRange && b.None? {
          b := Some(c);
        } else {
          return Err(Fault("Syntax Error"));
        }
      }
    }
    r := Finish(Scan(ranges, len, a, b, inRange));
    ParsedIsWellFormed(text);
  }

  /** Once a prefix is refused, so is the whole text. */
  lemma {:induction false} ScanStops(s: Scan, text: string, m: nat, n: nat)
    requires m <= n <= |text|
    ensures ScanFirst(s, text, m).Err? ==> ScanFirst(s, text, n) == ScanFirst(s, text, m)
    decreases n
  {
    if m < n {
      ScanStops(s, text, m, n - 1);
    }
  }

  lemma Refused(text: string, n: nat)
    requires n <= |text|
    ensures ScanFirst(FRESH, text, n).Err? ==> Parsed(text) == Err(ScanFirst(FRESH, text, n).error)
  {
    ScanStops(FRESH, text, n, |text|);
  }

  // ----- what a set read from text looks like

  predicate GoodRange(r: Range) {
    if r.count == 1 then r.start == r.end
    else r.start < r.end && r.end as int <= 0x7F && r.count == r.end as int - r.start as int + 1
  }

  /** The sizes of the first n ranges. */
  function SumFirst(rs: seq<Range>, n: nat): nat
    requires n <= |rs|
  {
    if n == 0 then 0 else SumFirst(rs, n - 1) + rs[n - 1].count
  }

  function Sum(rs: seq<Range>): nat {
    SumFirst(rs, |rs|)
  }

  predicate GoodRanges(rs: seq<Range>) {
    forall i :: 0 <= i < |rs| ==> GoodRange(rs[i])
  }

  /** Every range is a single character or an ASCII span with its size, and the total is the sum of the sizes. */
  predicate WellFormed(s: CharSet) {
    GoodRanges(s.ranges) && s.total == Sum(s.ranges)
  }

  lemma {:induction false} SumPrefix(rs: seq<Range>, r: Range, n: nat)
    requires n <= |rs|
    ensures SumFirst(rs + [r], n) == SumFirst(rs, n)
    decreases n
  {
    if n > 0 {
      SumPrefix(rs, r, n - 1);
    }
  }

  lemma SumSnoc(rs: seq<Range>, r: Range)
    ensures Sum(rs + [r]) == Sum(rs) + r.count
  {
    SumPrefix(rs, r, |rs|);
  }

  /** What has been read so far is well formed. */
  predicate GoodScan(s: Scan) {
    GoodRanges(s.ranges) && s.len == Sum(s.ranges)
  }

  lemma CloseKeepsGood(s: Scan, start: char, end: char)
    requires GoodScan(s) && Close(s, start, end).Ok?
    ensures GoodScan(Close(s, start, end).value)
  {
    SumSnoc(s.ranges, Range(start, end, end as int - start as int + 1));
  }

  lemma CharKeepsGood(s: Scan, c: char)
    requires GoodScan(s) && ScanChar(s, c).Ok?
    ensures GoodScan(ScanChar(s, c).value)
  {
    if c == ',' && s.a.Some? {
      SumSnoc(s.ranges, Range(s.a.value, s.a.value, 1));
      if s.b.Some? {
        CloseKeepsGood(s, s.a.value, s.b.value);
      }
    }
  }

  lemma {:induction false} ScanKeepsGood(text: string, n: nat)
    requires n <= |text| && ScanFirst(FRESH, text, n).Ok?
    ensures GoodScan(ScanFirst(FRESH, text, n).value)
    decreases n
  {
    if n > 0 {
      ScanKeepsGood(text, n - 1);
      CharKeepsGood(ScanFirst(FRESH, text, n - 1).value, text[n - 1]);
    }
  }

  /** Whatever text is accepted, the set read is well formed. */
  lemma ParsedIsWellFormed(text: string)
    ensures Parsed(text).Ok? ==> WellFormed(Parsed(text).value)
  {
    if Parsed(text).Ok? {
      ScanKeepsGood(text, |text|);
      var s := ScanAll(FRESH, text).value;
      if s.a.Some? {
        SumSnoc(s.ranges, Range(s.a.value, s.a.value, 1));
        if s.b.Some? {
          CloseKeepsGood(s, s.a.value, s.b.value);
        }
      }
    }
  }

  // ----- round trip

  /** The state of the scanner after a printed range, before the separator or the end. */
  function Pending(rs: seq<Range>, len: nat, r: Range): Scan {
    if r.count == 1 then Scan(rs, len, Some(r.start), None, false)
    else Scan(rs, len, Some(r.start), Some(r.end), true)
  }

  lemma {:induction false} ScanPrefix(s: Scan, x: string, y: string, n: nat)
    requires n <= |x|
    ensures ScanFirst(s, x + y, n) == ScanFirst(s, x, n)
    decreases n
  {
    if n > 0 {
      ScanPrefix(s, x, y, n - 1);
    }
  }

  lemma {:induction false} ScanSuffix(s: Scan, x: string, y: string, n: nat)
    requires n <= |y|
    ensures ScanFirst(s, x + y, |x| + n) == match ScanAll(s, x) case Ok(t) => ScanFirst(t, y, n) case Err(e) => Err(e)
    decreases n
  {
    if n == 0 {
      ScanPrefix(s, x, y, |x|);
    } else {
      ScanSuffix(s, x, y, n - 1);
    }
  }

  lemma ScanAppend(s: Scan, x: string, y: string)
    ensures ScanAll(s, x + y) == match ScanAll(s, x) case Ok(t) => ScanAll(t, y) case Err(e) => Err(e)
  {
    ScanSuffix(s, x, y, |y|);
  }

  /** A printed range is scanned as itself, also when its bounds are commas or dashes. */
  lemma ScanRange(rs: seq<Range>, len: nat, r: Range)
    requires GoodRange(r)
    ensures ScanAll(Scan(rs, len, None, None, false), PrintRange(r)) == Ok(Pending(rs, len, r))
  {
    var s, text := Scan(rs, len, None, None, false), PrintRange(r);
    assert ScanFirst(s, text, 0) == Ok(s);
    assert ScanFirst(s, text, 1) == Ok(s.(a := Some(r.start)));
    if r.count != 1 {
      assert ScanFirst(s, text, 2) == Ok(s.(a := Some(r.start), inRange := true));
      assert ScanFirst(s, text, 3) == Ok(Pending(rs, len, r));
    }
  }

  lemma ScanSeparator(rs: seq<Range>, len: nat, r: Range)
    requires GoodRange(r)
    ensures ScanAll(Pending(rs, len, r), ",") == Ok(Scan(rs + [r], len + r.count, None, None, false))
  {
    assert ScanFirst(Pending(rs, len, r), ",", 0) == Ok(Pending(rs, len, r));
  }

  lemma ScanOneMore(text: string, rs: seq<Range>, len: nat, r: Range, next: Range)
    requires ScanAll(FRESH, text) == Ok(Pending(rs, len, r)) && GoodRange(r) && GoodRange(next)
    ensures ScanAll(FRESH, text + "," + PrintRange(next)) == Ok(Pending(rs + [r], len + r.count, next))
  {
    ScanAppend(FRESH, text, ",");
    ScanSeparator(rs, len, r);
    ScanAppend(FRESH, text + ",", PrintRange(next));
    ScanRange(rs + [r], len + r.count, next);
  }

  lemma PrintSnoc(front: seq<Range>, last: Range)
    ensures PrintRanges(front + [last]) == if front == [] then PrintRange(last) else PrintRanges(front) + "," + PrintRange(last)
  {
  }

  lemma {:induction false} ScanRanges(front: seq<Range>, last: Range)
    requires GoodRanges(front) && GoodRange(last)
    ensures ScanAll(FRESH, PrintRanges(front + [last])) == Ok(Pending(front, Sum(front), last))
    decreases |front|
  {
    if front == [] {
      PrintSnoc([], last);
      ScanRange([], 0, last);
    } else {
      var ff, fl := front[..|front| - 1], front[|front| - 1];
      assert front == ff + [fl];
      ScanRanges(ff, fl);
      PrintSnoc(front, last);
      ScanNext(PrintRanges(front), PrintRanges(front + [last]), ff, front, fl, last);
    }
  }

  lemma ScanNext(text: string, longer: string, front: seq<Range>, rs: seq<Range>, r: Range, next: Range)
    requires ScanAll(FRESH, text) == Ok(Pending(front, Sum(front), r)) && GoodRange(r) && GoodRange(next)
    requires longer == text + "," + PrintRange(next) && rs == front + [r]
    ensures ScanAll(FRESH, longer) == Ok(Pending(rs, Sum(rs), next))
  {
    ScanOneMore(text, front, Sum(front), r, next);
    SumSnoc(front, r);
  }

  lemma FinishPending(rs: seq<Range>, len: nat, r: Range)
    requires GoodRange(r)
    ensures Finish(Pending(rs, len, r)) == Ok(CharSet(rs + [r], len + r.count))
  {
  }

  /** Parsing the printed form of any well-formed set gives the set back. */
  lemma PrintThenParse(s: CharSet)
    requires WellFormed(s)
    ensures Parsed(Print(s)) == Ok(s)
  {
    var rs := s.ranges;
    if rs != [] {
      var front, last := rs[..|rs| - 1], rs[|rs| - 1];
      assert front + [last] == rs;
      ScanRanges(front, last);
      FinishPending(front, Sum(front), last);
      SumSnoc(front, last);
      assert ScanAll(FRESH, Print(s)) == Ok(Pending(front, Sum(front), last));
    }
  }

  /** Printing is a normal form: text that is accepted may be replaced by the print of what it denotes. */
  lemma ParseThenPrint(text: string)
    requires Parsed(text).Ok?
    ensures Parsed(Print(Parsed(text).value)) == Parsed(text)
  {
    ParsedIsWellFormed(text);
    PrintThenParse(Parsed(text).value);
  }

  // ----- sampling

  /** The number falls into the i-th range when the ranges are laid end to end, and the character is in it. */
  predicate DrawnFrom(rs: seq<Range>, drawn: nat, i: nat, c: char) {
    i < |rs| && SumFirst(rs, i) <= drawn < SumFirst(rs, i + 1) && rs[i].start <= c <= rs[i].end
  }

  /**
   * Takes an index drawn below the total, walks to the range it falls in and draws a code
   * point there. The walk never runs off the end, and the character drawn is one of that range.
   */
  method Gen(s: CharSet, drawn: nat) returns (c: char)
    requires WellFormed(s) && drawn < s.total
    ensures Contains(s, c)
    ensures exists i :: DrawnFrom(s.ranges, drawn, i, c)
  {
    var idx: nat := drawn;
    for i := 0 to |s.ranges|
      invariant idx + SumFirst(s.ranges, i) == drawn
    {
      var r := s.ranges[i];
      if idx < r.count {
        assert GoodRange(r);
        var code :| r.start as int <= code <= r.end as int by {
          assert r.start as int <= r.start as int <= r.end as int;
        }
        c := CodeIn(r, code);
        assert InRange(s.ranges[i], c) && DrawnFrom(s.ranges, drawn, i, c);
        return;
      } else {
        idx := idx - r.count;
      }
    }
    assert false;
    c := ' ';
  }

  function CodeIn(r: Range, code: int): (c: char)
    requires GoodRange(r) && r.start as int <= code <= r.end as int
    ensures InRange(r, c) && c as int == code
  {
    if r.start == r.end then r.start else code as char
  }

  /** The set used when a spec names none is what its own notation denotes. */
  lemma DefaultIsWellFormed()
    ensures WellFormed(DEFAULT) && Parsed("!-~") == Ok(DEFAULT)
  {
    SumSnoc([], DEFAULT.ranges[0]);
    assert [] + [DEFAULT.ranges[0]] == DEFAULT.ranges;
    assert Print(DEFAULT) == "!-~";
    PrintThenParse(DEFAULT);
  }
}
