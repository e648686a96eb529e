/** The texts that the scanner accepts, and the set that each denotes, stated without the scanner. */
module CharSetLanguage {
  import opened Common
  import opened CharSets

  /** What may follow the last separator; an unfinished span counts as its first character. */
  datatype Tail = Nothing | Single(c: char) | Open(c: char) | Span(c: char, d: char)

  function ItemText(r: Range): string {
    if r.start == r.end then [r.start] else [r.start, '-', r.end]
  }

  /** Every item followed by a separator. */
  function Terminated(rs: seq<Range>): string {
    if rs == [] then "" else Terminated(rs[..|rs| - 1]) + ItemText(rs[|rs| - 1]) + ","
  }

  function TailText(t: Tail): string {
    match t
    case Nothing => ""
    case Single(c) => [c]
    case Open(c) => [c, '-']
    case Span(c, d) => [c, '-', d]
  }

  function TailRanges(t: Tail): seq<Range> {
    match t
    case Nothing => []
    case Single(c) => [Range(c, c, 1)]
    case Open(c) => [Range(c, c, 1)]
    case Span(c, d) => if c < d then [Range(c, d, d as int - c as int + 1)] else []
  }

  predicate TailOk(t: Tail) {
    t.Span? ==> t.c < t.d && t.d as int <= 0x7F
  }

  /**
   * The text is a sequence of items, each a single character of any kind or a span of two characters
   * that ends in ASCII and ascends, every one followed by a comma but the last, which may be missing
   * or unfinished; the set has their ranges in order, and the sum of their sizes.
   */
  ghost predicate Splits(text: string, s: CharSet, rs: seq<Range>, tail: Tail) {
    && GoodRanges(rs) && TailOk(tail) && text == Terminated(rs) + TailText(tail)
    && s.ranges == rs + TailRanges(tail) && s.total == Sum(s.ranges)
  }

  ghost predicate Denotes(text: string, s: CharSet) {
    exists rs, tail :: Splits(text, s, rs, tail)
  }

  // ----- what has been read at each point

  /** The state of the scanner is one it can be in. */
  predicate Shaped(s: Scan) {
    && (s.a.None? ==> s.b.None? && !s.inRange)
    && (s.b.Some? ==> s.inRange)
  }

  function TailOf(s: Scan): Tail {
    match (s.a, s.b, s.inRange)
    case (Some(c), Some(d), _) => Span(c, d)
    case (Some(c), None, true) => Open(c)
    case (Some(c), None, false) => Single(c)
    case _ => Nothing
  }

  lemma TerminatedSnoc(rs: seq<Range>, r: Range)
    ensures Terminated(rs + [r]) == Terminated(rs) + ItemText(r) + ","
  {
    assert (rs + [r])[..|rs|] == rs;
  }

  /** The character is a separator that ends the pending item. */
  predicate Separates(s: Scan, c: char) {
    c == ',' && s.a.Some? && (s.b.Some? || !s.inRange)
  }

  function PendingRange(s: Scan): Range
    requires s.a.Some? && (s.b.Some? ==> s.a.value < s.b.value)
  {
    if s.b.Some? then Range(s.a.value, s.b.value, s.b.value as int - s.a.value as int + 1) else Range(s.a.value, s.a.value, 1)
  }

  lemma SeparatorCloses(s: Scan)
    requires Shaped(s) && Separates(s, ',') && ScanChar(s, ',').Ok?
    ensures s.b.Some? ==> s.a.value < s.b.value
    ensures var t := ScanChar(s, ',').value;
            t.ranges == s.ranges + [PendingRange(s)] && Shaped(t) && TailOf(t) == Nothing
    ensures ItemText(PendingRange(s)) == TailText(TailOf(s))
  {
  }

  lemma OtherExtends(s: Scan, c: char)
    requires Shaped(s) && !Separates(s, c) && ScanChar(s, c).Ok?
    ensures var t := ScanChar(s, c).value;
            t.ranges == s.ranges && Shaped(t) && TailText(TailOf(t)) == TailText(TailOf(s)) + [c]
  {
  }

  lemma CharTraced(s: Scan, c: char, text: string)
    requires Shaped(s) && ScanChar(s, c).Ok? && text == Terminated(s.ranges) + TailText(TailOf(s))
    ensures var t := ScanChar(s, c).value; Shaped(t) && text + [c] == Terminated(t.ranges) + TailText(TailOf(t))
  {
    if Separates(s, c) {
      SeparatorCloses(s);
      TerminatedSnoc(s.ranges, PendingRange(s));
    } else {
      OtherExtends(s, c);
    }
  }

  lemma TakeMore(text: string, n: nat)
    requires 0 < n <= |text|
    ensures text[..n] == text[..n - 1] + [text[n - 1]]
  {
  }

  lemma {:induction false} TextTraced(text: string, n: nat)
    requires n <= |text| && ScanFirst(FRESH, text, n).Ok?
    ensures var s := ScanFirst(FRESH, text, n).value;
            Shaped(s) && text[..n] == Terminated(s.ranges) + TailText(TailOf(s))
    decreases n
  {
    if n > 0 {
      TextTraced(text, n - 1);
      TakeMore(text, n);
      CharTraced(ScanFirst(FRESH, text, n - 1).value, text[n - 1], text[..n - 1]);
    }
  }

  lemma FinishShaped(s: Scan)
    requires Shaped(s) && Finish(s).Ok?
    ensures TailOk(TailOf(s)) && Finish(s).value.ranges == s.ranges + TailRanges(TailOf(s))
  {
  }

  /** Only texts of the language are accepted, and as what they denote. */
  lemma AcceptedDenotes(text: string)
    requires Parsed(text).Ok?
    ensures Denotes(text, Parsed(text).value)
  {
    TextTraced(text, |text|);
    ScanKeepsGood(text, |text|);
    ParsedIsWellFormed(text);
    assert text[..|text|] == text;
    var s := ScanAll(FRESH, text).value;
    FinishShaped(s);
    assert Splits(text, Parsed(text).value, s.ranges, TailOf(s));
  }

  // ----- every text of the language is accepted

  lemma ScanItem(text: string, front: seq<Range>, len: nat, r: Range)
    requires ScanAll(FRESH, text) == Ok(Scan(front, len, None, None, false)) && GoodRange(r)
    ensures ScanAll(FRESH, text + ItemText(r) + ",") == Ok(Scan(front + [r], len + r.count, None, None, false))
  {
    assert ItemText(r) == PrintRange(r);
    ScanAppend(FRESH, text, ItemText(r));
    ScanRange(front, len, r);
    ScanAppend(FRESH, text + ItemText(r), ",");
    ScanSeparator(front, len, r);
  }

  lemma ScanLonger(text: string, longer: string, front: seq<Range>, rs: seq<Range>, r: Range)
    requires ScanAll(FRESH, text) == Ok(Scan(front, Sum(front), None, None, false)) && GoodRange(r)
    requires longer == text + ItemText(r) + "," && rs == front + [r]
    ensures ScanAll(FRESH, longer) == Ok(Scan(rs, Sum(rs), None, None, false))
  {
    ScanItem(text, front, Sum(front), r);
    SumSnoc(front, r);
  }

  lemma {:induction false} ScanTerminated(rs: seq<Range>)
    requires GoodRanges(rs)
    ensures ScanAll(FRESH, Terminated(rs)) == Ok(Scan(rs, Sum(rs), None, None, false))
    decreases |rs|
  {
    if rs != [] {
      var front, r := rs[..|rs| - 1], rs[|rs| - 1];
      ScanTerminated(front);
      assert rs == front + [r];
      ScanLonger(Terminated(front), Terminated(rs), front, rs, r);
    }
  }

  /** The state after the tail. */
  function AfterTail(rs: seq<Range>, t: Tail): Scan {
    match t
    case Nothing => Scan(rs, Sum(rs), None, None, false)
    case Single(c) => Scan(rs, Sum(rs), Some(c), None, false)
    case Open(c) => Scan(rs, Sum(rs), Some(c), None, true)
    case Span(c, d) => Scan(rs, Sum(rs), Some(c), Some(d), true)
  }

  lemma ScanTail(rs: seq<Range>, t: Tail)
    requires TailOk(t)
    ensures ScanAll(Scan(rs, Sum(rs), None, None, false), TailText(t)) == Ok(AfterTail(rs, t))
  {
    match t
    case Nothing =>
    case Single(c) => ScanRange(rs, Sum(rs), Range(c, c, 1));
    case Open(c) =>
      var s := Scan(rs, Sum(rs), None, None, false);
      assert ScanFirst(s, [c, '-'], 0) == Ok(s);
      assert ScanFirst(s, [c, '-'], 1) == Ok(s.(a := Some(c)));
    case Span(c, d) => ScanRange(rs, Sum(rs), Range(c, d, d as int - c as int + 1));
  }

  lemma DenotedIsAccepted(text: string, s: CharSet)
    requires Denotes(text, s)
    ensures Parsed(text) == Ok(s)
  {
    var rs, tail :| Splits(text, s, rs, tail);
    ScanTerminated(rs);
    ScanTail(rs, tail);
    ScanAppend(FRESH, Terminated(rs), TailText(tail));
    FinishTail(rs, tail);
  }

  lemma FinishTail(rs: seq<Range>, t: Tail)
    requires TailOk(t)
    ensures Finish(AfterTail(rs, t)) == Ok(CharSet(rs + TailRanges(t), Sum(rs + TailRanges(t))))
  {
    match t
    case Nothing => assert rs + [] == rs;
    case Single(c) => SumSnoc(rs, Range(c, c, 1));
    case Open(c) => SumSnoc(rs, Range(c, c, 1));
    case Span(c, d) => SumSnoc(rs, Range(c, d, d as int - c as int + 1));
  }

  /** A text is read as a set exactly when it denotes it, and refused exactly when it denotes none. */
  lemma ParsedExactly(text: string)
    ensures forall s :: Parsed(text) == Ok(s) <==> Denotes(text, s)
    ensures Parsed(text).Err? <==> forall s :: !Denotes(text, s)
  {
    if Parsed(text).Ok? {
      AcceptedDenotes(text);
    }
    forall s | Denotes(text, s)
      ensures Parsed(text) == Ok(s)
    {
      DenotedIsAccepted(text, s);
    }
  }

  /** A trailing separator adds nothing. */
  lemma TrailingSeparator(r: Range)
    requires GoodRange(r)
    ensures Parsed(ItemText(r) + ",") == Ok(CharSet([r], r.count))
  {
    var text, s := ItemText(r) + ",", CharSet([r], r.count);
    TerminatedSnoc([], r);
    assert [] + [r] == [r] && "" + ItemText(r) + "," == text;
    assert SumFirst([r], 0) == 0;
    assert s.ranges == [r] + TailRanges(Nothing) && text == Terminated([r]) + TailText(Nothing);
    assert Splits(text, s, [r], Nothing);
    DenotedIsAccepted(text, s);
  }

  /** An unfinished span is its first character. */
  lemma UnfinishedSpan(c: char)
    ensures Parsed([c, '-']) == Ok(CharSet([Range(c, c, 1)], 1))
  {
    SumSnoc([], Range(c, c, 1));
    assert [] + [Range(c, c, 1)] == [Range(c, c, 1)];
    assert Splits([c, '-'], CharSet([Range(c, c, 1)], 1), [], Open(c));
    DenotedIsAccepted([c, '-'], CharSet([Range(c, c, 1)], 1));
  }

  /** Two characters in a row are refused, unless the second is a separator or a dash. */
  lemma TwoInARow(c: char, d: char)
    requires d != ',' && d != '-'
    ensures Parsed([c, d]).Err?
  {
    var s := FRESH.(a := Some(c));
    assert ScanFirst(FRESH, [c, d], 0) == Ok(FRESH);
    assert ScanFirst(FRESH, [c, d], 1) == Ok(s);
    assert ScanFirst(FRESH, [c, d], 2) == ScanChar(s, d);
  }
}
