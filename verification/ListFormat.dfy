/** The list format of cpu sets: what is printed, and what is accepted. */
module ListFormat {
  import opened Common

  const INT_MAX := 0x7fff_ffff

  /** The exceptions of `parse`; an overrun is a range whose loop never meets its end. */
  datatype ParseError = InvalidArgument | OutOfRange | RangeOverrun

  // ---------------------------------------------------------------------
  // Decimal numbers
  // ---------------------------------------------------------------------

  predicate IsDigit(c: char) {
    '0' <= c <= '9'
  }

  predicate AllDigits(s: string) {
    forall i | 0 <= i < |s| :: IsDigit(s[i])
  }

  function DigitValue(c: char): nat
    requires IsDigit(c)
  {
    c as int - '0' as int
  }

  function Decimal(n: nat): (s: string)
    ensures s != [] && AllDigits(s)
  {
    var last := [('0' as int + n % 10) as char];
    if n < 10 then last else Decimal(n / 10) + last
  }

  function DecimalValue(s: string): nat
    requires AllDigits(s)
  {
    if s == [] then 0
    else 10 * DecimalValue(s[..|s| - 1]) + DigitValue(s[|s| - 1])
  }

  predicate IsSpace(c: char) {
    c == ' ' || '\t' <= c <= '\r'
  }

  function SkipSpaces(s: string): string {
    if s != [] && IsSpace(s[0]) then SkipSpaces(s[1..]) else s
  }

  /** `strtonum<int>`: leading spaces, a sign and digits up to the end, in the range of `int`. */
  function StrToNum(s: string): Option<int> {
    var t := SkipSpaces(s);
    var signed := t != [] && (t[0] == '-' || t[0] == '+');
    var digits := if signed then t[1..] else t;
    if digits == [] || !AllDigits(digits) then None
    else
      var n := DecimalValue(digits) as int;
      var v := if signed && t[0] == '-' then -n else n;
      if -INT_MAX - 1 <= v <= INT_MAX then Some(v) else None
  }

  lemma {:induction false} DecimalRoundTrip(n: nat)
    ensures DecimalValue(Decimal(n)) == n
  {
    var s := Decimal(n);
    var last := ('0' as int + n % 10) as char;
    assert DigitValue(last) == n % 10;
    if n < 10 {
      assert s[..0] == [];
    } else {
      DecimalRoundTrip(n / 10);
      assert s[..|s| - 1] == Decimal(n / 10);
    }
  }

  /** The number read back from a printed number is that number. */
  lemma StrToNumDecimal(n: nat)
    requires n <= INT_MAX
    ensures StrToNum(Decimal(n)) == Some(n)
  {
    DecimalRoundTrip(n);
    assert IsDigit(Decimal(n)[0]);
  }

  // ---------------------------------------------------------------------
  // Parsing
  // ---------------------------------------------------------------------

  /** The position of the first `c`, or the length. */
  function Find(s: string, c: char): (i: nat)
    ensures i <= |s|
    ensures c !in s[..i]
    ensures i < |s| ==> s[i] == c
  {
    if s == [] || s[0] == c then 0 else 1 + Find(s[1..], c)
  }

  lemma {:induction false} FindUnique(s: string, c: char, i: nat)
    requires i <= |s| && c !in s[..i] && (i < |s| ==> s[i] == c)
    ensures Find(s, c) == i
  {
    if i > 0 {
      assert s[0] == s[..i][0] && s[..i][1..] == s[1..][..i - 1];
      FindUnique(s[1..], c, i - 1);
    }
  }

  /** The set with the range [lo, hi] added. */
  function WithRange(cpus: seq<bool>, lo: int, hi: int): (r: seq<bool>)
    ensures |r| == |cpus|
    ensures forall i | 0 <= i < |r| :: r[i] == (cpus[i] || lo <= i <= hi)
  {
    seq(|cpus|, i requires 0 <= i < |cpus| => cpus[i] || lo <= i <= hi)
  }

  /** `set(cpu)` on a set of the capacity `|cpus|`. */
  function AddCpu(cpus: seq<bool>, cpu: int): Result<seq<bool>, ParseError> {
    if 0 <= cpu < |cpus| then Ok(WithRange(cpus, cpu, cpu)) else Err(OutOfRange)
  }

  /** `set(cpulo, cpuhi)`. */
  function AddRange(cpus: seq<bool>, lo: int, hi: int): Result<seq<bool>, ParseError> {
    if lo < 0 || hi < 0 || hi >= |cpus| then Err(OutOfRange)
    else if lo > hi + 1 then Err(RangeOverrun)
    else Ok(WithRange(cpus, lo, hi))
  }

  /** Add one comma-separated element to the set. */
  function AddElement(cpus: seq<bool>, element: string): Result<seq<bool>, ParseError> {
    var dash := Find(element, '-');
    if dash == |element| then
      match StrToNum(element)
      case None => Err(InvalidArgument)
      case Some(cpu) => AddCpu(cpus, cpu)
    else
      var lo, hi := element[..dash], element[dash + 1..];
      if hi == [] || '-' in hi then Err(InvalidArgument)
      else
        match (StrToNum(lo), StrToNum(hi))
        case (Some(cpulo), Some(cpuhi)) => AddRange(cpus, cpulo, cpuhi)
        case _ => Err(InvalidArgument)
  }

  /** Add every element of a text to the set; nothing follows the last comma. */
  function AddText(cpus: seq<bool>, text: string): Result<seq<bool>, ParseError>
    decreases |text|
  {
    if text == [] then Ok(cpus)
    else
      var comma := Find(text, ',');
      var added :- AddElement(cpus, text[..comma]);
      AddText(added, if comma < |text| then text[comma + 1..] else [])
  }

  function Empty(capacity: nat): (r: seq<bool>)
    ensures |r| == capacity
    ensures forall i | 0 <= i < |r| :: !r[i]
  {
    seq(capacity, _ => false)
  }

  /** What `parse` returns or throws. */
  function Parsed(text: string, capacity: nat): Result<seq<bool>, ParseError> {
    AddText(Empty(capacity), text)
  }

  // ---------------------------------------------------------------------
  // Printing
  // ---------------------------------------------------------------------

  datatype Range = Range(lo: nat, hi: nat)

  /** The first position from `i` on that is not in the set. */
  function RunEnd(cpus: seq<bool>, i: nat): (end: nat)
    requires i <= |cpus|
    ensures i <= end <= |cpus|
    ensures forall j | i <= j < end :: cpus[j]
    ensures end < |cpus| ==> !cpus[end]
    decreases |cpus| - i
  {
    if i < |cpus| && cpus[i] then RunEnd(cpus, i + 1) else i
  }

  /** The runs of consecutive cpus from position `i` on. */
  function Runs(cpus: seq<bool>, i: nat): seq<Range>
    requires i <= |cpus|
    decreases |cpus| - i
  {
    if i == |cpus| then []
    else if !cpus[i] then Runs(cpus, i + 1)
    else
      var end := RunEnd(cpus, i);
      [Range(i, end - 1)] + Runs(cpus, end)
  }

  /** A run is printed as one number only when it is short and not at the end of the capacity. */
  function RangeText(r: Range, capacity: nat): string {
    if r.lo == r.hi && r.hi + 1 != capacity then Decimal(r.lo)
    else Decimal(r.lo) + "-" + Decimal(r.hi)
  }

  function ListText(rs: seq<Range>, capacity: nat): string {
    if rs == [] then []
    else if |rs| == 1 then RangeText(rs[0], capacity)
    else ListText(rs[..|rs| - 1], capacity) + "," + RangeText(rs[|rs| - 1], capacity)
  }

  /** What `as_list_format` returns. */
  function Printed(cpus: seq<bool>): string {
    ListText(Runs(cpus, 0), |cpus|)
  }

  // ---------------------------------------------------------------------
  // The runs are canonical
  // ---------------------------------------------------------------------

  ghost predicate Covers(rs: seq<Range>, j: int) {
    exists k | 0 <= k < |rs| :: rs[k].lo <= j <= rs[k].hi
  }

  /** Ranges in increasing order, at least one absent cpu apart, from `i` on. */
  ghost predicate Separated(rs: seq<Range>, i: nat) {
    && (forall k | 0 <= k < |rs| :: i <= rs[k].lo <= rs[k].hi)
    && (forall k, m | 0 <= k < m < |rs| :: rs[k].hi + 1 < rs[m].lo)
  }

  /** The ranges `rs` are exactly the cpus of the set from `i` on. */
  ghost predicate Describes(rs: seq<Range>, cpus: seq<bool>, i: nat) {
    && (forall k | 0 <= k < |rs| :: rs[k].hi < |cpus|)
    && (forall j | i <= j < |cpus| :: cpus[j] <==> Covers(rs, j))
  }

  lemma {:induction false} RunsDescribe(cpus: seq<bool>, i: nat)
    requires i <= |cpus|
    ensures Separated(Runs(cpus, i), i)
    ensures Describes(Runs(cpus, i), cpus, i)
    decreases |cpus| - i
  {
    if i < |cpus| {
      if !cpus[i] {
        RunsDescribe(cpus, i + 1);
      } else {
        var end := RunEnd(cpus, i);
        RunsDescribe(cpus, end);
        RunBeforeRest(cpus, i, end, Runs(cpus, end));
      }
    }
  }

  lemma RunBeforeRest(cpus: seq<bool>, i: nat, end: nat, rest: seq<Range>)
    requires i < end <= |cpus| && (forall j | i <= j < end :: cpus[j])
    requires end < |cpus| ==> !cpus[end]
    requires Separated(rest, end) && Describes(rest, cpus, end)
    ensures Separated([Range(i, end - 1)] + rest, i)
    ensures Describes([Range(i, end - 1)] + rest, cpus, i)
  {
    var all := [Range(i, end - 1)] + rest;
    forall k | 0 <= k < |rest|
      ensures end < rest[k].lo
    {
      assert rest[k].lo == end ==> Covers(rest, end);
    }
    forall j | i <= j < |cpus|
      ensures cpus[j] <==> Covers(all, j)
    {
      CoversFirstOrRest(all, j);
      assert all[1..] == rest;
    }
  }

  lemma CoversFirstOrRest(rs: seq<Range>, j: int)
    requires rs != []
    ensures Covers(rs, j) <==> rs[0].lo <= j <= rs[0].hi || Covers(rs[1..], j)
  {
    if Covers(rs, j) {
      var k :| 0 <= k < |rs| && rs[k].lo <= j <= rs[k].hi;
      assert k > 0 ==> rs[1..][k - 1] == rs[k];
    }
    if Covers(rs[1..], j) {
      var k :| 0 <= k < |rs[1..]| && rs[1..][k].lo <= j <= rs[1..][k].hi;
      assert rs[k + 1] == rs[1..][k];
    }
  }

  /** The first of separated ranges, and the gap after it. */
  lemma FirstRange(rs: seq<Range>, i: nat, j: int)
    requires Separated(rs, i)
    ensures Covers(rs, j) ==> rs != [] && rs[0].lo <= j
    ensures rs != [] && rs[0].lo <= j <= rs[0].hi ==> Covers(rs, j)
    ensures rs != [] ==> !Covers(rs, rs[0].hi + 1)
  {
  }

  lemma SameFirst(a: seq<Range>, b: seq<Range>, cpus: seq<bool>, i: nat)
    requires Separated(a, i) && Describes(a, cpus, i) && a != []
    requires Separated(b, i) && Describes(b, cpus, i)
    ensures b != [] && b[0].lo <= a[0].lo
    ensures a[0].lo == b[0].lo ==> a[0].hi <= b[0].hi
  {
    FirstRange(a, i, a[0].lo);
    FirstRange(b, i, a[0].lo);
    assert cpus[a[0].lo];
    FirstRange(a, i, b[0].hi + 1);
    FirstRange(b, i, b[0].hi + 1);
  }

  /** Separated ranges that describe the same set are the same ranges. */
  lemma {:induction false} SeparatedUnique(a: seq<Range>, b: seq<Range>, cpus: seq<bool>, i: nat)
    requires Separated(a, i) && Describes(a, cpus, i)
    requires Separated(b, i) && Describes(b, cpus, i)
    ensures a == b
    decreases |a|
  {
    if a == [] {
      if b != [] {
        SameFirst(b, a, cpus, i);
      }
    } else {
      SameFirst(a, b, cpus, i);
      SameFirst(b, a, cpus, i);
      RestDescribes(a, cpus, i);
      RestDescribes(b, cpus, i);
      SeparatedUnique(a[1..], b[1..], cpus, a[0].hi + 1);
      assert a == [a[0]] + a[1..] && b == [b[0]] + b[1..];
    }
  }

  lemma RestDescribes(rs: seq<Range>, cpus: seq<bool>, i: nat)
    requires Separated(rs, i) && Describes(rs, cpus, i) && rs != []
    ensures Separated(rs[1..], rs[0].hi + 1)
    ensures Describes(rs[1..], cpus, rs[0].hi + 1)
  {
    forall j | rs[0].hi + 1 <= j < |cpus|
      ensures cpus[j] <==> Covers(rs[1..], j)
    {
      CoversFirstOrRest(rs, j);
    }
  }

  /**
   * Canonical printing: the set is printed as its one list of ranges in
   * increasing order with at least one absent cpu between them.
   */
  lemma PrintedCanonical(cpus: seq<bool>, rs: seq<Range>)
    requires Separated(rs, 0) && Describes(rs, cpus, 0)
    ensures Printed(cpus) == ListText(rs, |cpus|)
  {
    RunsDescribe(cpus, 0);
    SeparatedUnique(rs, Runs(cpus, 0), cpus, 0);
  }

  // ---------------------------------------------------------------------
  // The parser undoes the printer
  // ---------------------------------------------------------------------

  lemma RangeTextHasNoComma(r: Range, capacity: nat)
    ensures ',' !in RangeText(r, capacity)
    ensures RangeText(r, capacity) != []
  {
    assert forall i | 0 <= i < |Decimal(r.lo)| :: IsDigit(Decimal(r.lo)[i]);
    assert forall i | 0 <= i < |Decimal(r.hi)| :: IsDigit(Decimal(r.hi)[i]);
  }

  lemma DecimalHasNoDash(n: nat)
    ensures '-' !in Decimal(n)
  {
    assert forall i | 0 <= i < |Decimal(n)| :: IsDigit(Decimal(n)[i]);
  }

  lemma NumberElement(cpus: seq<bool>, lo: string)
    requires '-' !in lo
    ensures var n := StrToNum(lo);
            AddElement(cpus, lo) == if n.None? then Err(InvalidArgument) else AddCpu(cpus, n.value)
  {
    assert lo[..|lo|] == lo;
    FindUnique(lo, '-', |lo|);
  }

  lemma RangeElement(cpus: seq<bool>, lo: string, hi: string)
    requires '-' !in lo && '-' !in hi && hi != []
    requires StrToNum(lo).Some? && StrToNum(hi).Some?
    ensures AddElement(cpus, lo + "-" + hi) == AddRange(cpus, StrToNum(lo).value, StrToNum(hi).value)
  {
    var text := lo + "-" + hi;
    assert text[..|lo|] == lo && text[|lo| + 1..] == hi;
    FindUnique(text, '-', |lo|);
  }

  /** A printed range is read as that range. */
  lemma ElementOfRange(cpus: seq<bool>, r: Range)
    requires r.lo <= r.hi < |cpus| <= INT_MAX
    ensures AddElement(cpus, RangeText(r, |cpus|)) == Ok(WithRange(cpus, r.lo, r.hi))
  {
    StrToNumDecimal(r.lo);
    StrToNumDecimal(r.hi);
    DecimalHasNoDash(r.lo);
    DecimalHasNoDash(r.hi);
    if r.lo == r.hi && r.hi + 1 != |cpus| {
      NumberElement(cpus, Decimal(r.lo));
    } else {
      RangeElement(cpus, Decimal(r.lo), Decimal(r.hi));
    }
  }

  /** The set with every range added. */
  ghost function WithRanges(cpus: seq<bool>, rs: seq<Range>): (r: seq<bool>)
    ensures |r| == |cpus|
  {
    if rs == [] then cpus
    else WithRange(WithRanges(cpus, rs[..|rs| - 1]), rs[|rs| - 1].lo, rs[|rs| - 1].hi)
  }

  lemma {:induction false} WithRangesCovers(cpus: seq<bool>, rs: seq<Range>, j: nat)
    requires j < |cpus|
    ensures WithRanges(cpus, rs)[j] <==> cpus[j] || Covers(rs, j)
  {
    if rs != [] {
      var front, last := rs[..|rs| - 1], rs[|rs| - 1];
      WithRangesCovers(cpus, front, j);
      if Covers(front, j) {
        var k :| 0 <= k < |front| && front[k].lo <= j <= front[k].hi;
        assert rs[k] == front[k];
      }
      if last.lo <= j <= last.hi {
        assert rs[|rs| - 1].lo <= j <= rs[|rs| - 1].hi;
      }
    }
  }

  lemma OneElement(cpus: seq<bool>, element: string)
    requires element != [] && ',' !in element
    ensures AddText(cpus, element) == AddElement(cpus, element)
  {
    assert element[..|element|] == element;
    FindUnique(element, ',', |element|);
  }

  lemma FirstElement(cpus: seq<bool>, element: string, rest: string)
    requires ',' !in element
    ensures var first := AddElement(cpus, element);
            AddText(cpus, element + "," + rest) == if first.Err? then first else AddText(first.value, rest)
  {
    var text := element + "," + rest;
    assert text[..|element|] == element && text[|element| + 1..] == rest;
    FindUnique(text, ',', |element|);
  }

  lemma OnlyElementThenMore(cpus: seq<bool>, text: string, element: string)
    requires text != [] && ',' !in text && element != [] && ',' !in element
    ensures var before := AddText(cpus, text);
            AddText(cpus, text + "," + element) == if before.Err? then before else AddElement(before.value, element)
  {
    OneElement(cpus, text);
    FirstElement(cpus, text, element);
    var first := AddElement(cpus, text);
    if first.Ok? {
      OneElement(first.value, element);
    }
  }

  /** One element more at the end of a text. */
  lemma {:induction false} AddTextAppend(cpus: seq<bool>, text: string, element: string)
    requires text != [] && text[|text| - 1] != ','
    requires element != [] && ',' !in element
    ensures var before := AddText(cpus, text);
            AddText(cpus, text + "," + element) == if before.Err? then before else AddElement(before.value, element)
    decreases |text|
  {
    var comma := Find(text, ',');
    if comma == |text| {
      assert text[..comma] == text;
      OnlyElementThenMore(cpus, text, element);
    } else {
      var first, rest := text[..comma], text[comma + 1..];
      SplitAtComma(text, comma, []);
      SplitBeforeElement(text, comma, element);
      FirstElement(cpus, first, rest);
      FirstElement(cpus, first, rest + "," + element);
      if AddElement(cpus, first).Ok? {
        AddTextAppend(AddElement(cpus, first).value, rest, element);
      }
    }
  }

  lemma {:induction false} ListTextEnd(rs: seq<Range>, capacity: nat)
    requires rs != []
    ensures ListText(rs, capacity) != []
    ensures ListText(rs, capacity)[|ListText(rs, capacity)| - 1] != ','
  {
    var last := RangeText(rs[|rs| - 1], capacity);
    RangeTextHasNoComma(rs[|rs| - 1], capacity);
    var text := ListText(rs, capacity);
    assert text[|text| - 1] == last[|last| - 1];
  }

  /** Reading any list of ranges, in any order and overlapping or not, adds every range. */
  lemma {:induction false} TextOfRanges(cpus: seq<bool>, rs: seq<Range>)
    requires |cpus| <= INT_MAX
    requires forall k | 0 <= k < |rs| :: rs[k].lo <= rs[k].hi < |cpus|
    ensures AddText(cpus, ListText(rs, |cpus|)) == Ok(WithRanges(cpus, rs))
  {
    if rs != [] {
      var front, last := rs[..|rs| - 1], rs[|rs| - 1];
      var text := RangeText(last, |cpus|);
      TextOfRanges(cpus, front);
      RangeTextHasNoComma(last, |cpus|);
      ElementOfRange(WithRanges(cpus, front), last);
      if front == [] {
        OneElement(cpus, text);
      } else {
        ListTextEnd(front, |cpus|);
        AddTextAppend(cpus, ListText(front, |cpus|), text);
      }
    }
  }

  /** The parser undoes the printer, for every capacity and every set. */
  lemma ParserUndoesPrinter(cpus: seq<bool>)
    requires |cpus| <= INT_MAX
    ensures Parsed(Printed(cpus), |cpus|) == Ok(cpus)
  {
    var rs, none := Runs(cpus, 0), Empty(|cpus|);
    RunsDescribe(cpus, 0);
    TextOfRanges(none, rs);
    forall j: nat | j < |cpus|
      ensures WithRanges(none, rs)[j] == cpus[j]
    {
      WithRangesCovers(none, rs, j);
    }
    assert WithRanges(none, rs) == cpus;
  }

  lemma {:induction false} AddTextCapacity(cpus: seq<bool>, text: string)
    ensures AddText(cpus, text).Ok? ==> |AddText(cpus, text).value| == |cpus|
    decreases |text|
  {
    if text != [] {
      var comma := Find(text, ',');
      var added := AddElement(cpus, text[..comma]);
      if added.Ok? {
        AddTextCapacity(added.value, if comma < |text| then text[comma + 1..] else []);
      }
    }
  }

  /** Printing an accepted text again and reading that gives the same set. */
  lemma ParsePrintParse(text: string, capacity: nat)
    requires capacity <= INT_MAX
    ensures Parsed(text, capacity).Ok? ==>
              Parsed(Printed(Parsed(text, capacity).value), capacity) == Parsed(text, capacity)
  {
    AddTextCapacity(Empty(capacity), text);
    if Parsed(text, capacity).Ok? {
      ParserUndoesPrinter(Parsed(text, capacity).value);
    }
  }

  /** Different sets are printed differently. */
  lemma PrinterIsInjective(a: seq<bool>, b: seq<bool>)
    requires |a| == |b| <= INT_MAX
    ensures Printed(a) == Printed(b) ==> a == b
  {
    ParserUndoesPrinter(a);
    ParserUndoesPrinter(b);
  }

  /** Beyond the documented grammar, a comma at the end is accepted and ignored. */
  lemma {:induction false} TrailingComma(cpus: seq<bool>, text: string)
    requires text != [] && text[|text| - 1] != ','
    ensures AddText(cpus, text + ",") == AddText(cpus, text)
    decreases |text|
  {
    var comma := Find(text, ',');
    var first := AddElement(cpus, text[..comma]);
    if comma == |text| {
      assert text[..comma] == text;
      assert text + "," + [] == text + ",";
      OneElement(cpus, text);
      FirstElement(cpus, text, []);
    } else {
      var rest := text[comma + 1..];
      SplitAtComma(text, comma, ",");
      FirstElement(cpus, text[..comma], rest);
      FirstElement(cpus, text[..comma], rest + ",");
      if first.Ok? {
        TrailingComma(first.value, rest);
      }
    }
  }

  lemma SplitAtComma(text: string, comma: nat, tail: string)
    requires comma < |text| && text[comma] == ','
    ensures text == text[..comma] + "," + text[comma + 1..]
    ensures text + tail == text[..comma] + "," + (text[comma + 1..] + tail)
  {
  }

  lemma SplitBeforeElement(text: string, comma: nat, element: string)
    requires comma < |text| && text[comma] == ','
    ensures text + "," + element == text[..comma] + "," + (text[comma + 1..] + "," + element)
  {
  }

  // ---------------------------------------------------------------------
  // The printing loop
  // ---------------------------------------------------------------------

  /** The ranges printed so far, followed by the runs from `i` on, are all the runs. */
  ghost predicate Progress(cpus: seq<bool>, printed: seq<Range>, i: nat) {
    printed + (if i < |cpus| then Runs(cpus, i) else []) == Runs(cpus, 0)
  }

  lemma SkipAbsent(cpus: seq<bool>, printed: seq<Range>, i: nat)
    requires i < |cpus| && !cpus[i] && Progress(cpus, printed, i)
    ensures Progress(cpus, printed, i + 1)
  {
    assert Runs(cpus, |cpus|) == [];
  }

  lemma PrintRun(cpus: seq<bool>, printed: seq<Range>, i: nat)
    requires i < |cpus| && cpus[i] && Progress(cpus, printed, i)
    ensures var end := RunEnd(cpus, i);
            && Progress(cpus, printed + [Range(i, end - 1)], end)
            && Progress(cpus, printed + [Range(i, end - 1)], end + 1)
  {
    var end := RunEnd(cpus, i);
    var now := printed + [Range(i, end - 1)];
    assert Runs(cpus, i) == [Range(i, end - 1)] + Runs(cpus, end);
    assert now + Runs(cpus, end) == printed + Runs(cpus, i);
    if end < |cpus| {
      SkipAbsent(cpus, now, end);
    } else {
      assert Runs(cpus, |cpus|) == [];
    }
  }

  lemma ListTextAppend(rs: seq<Range>, r: Range, capacity: nat, os: string, sep: string, text: string)
    requires os == ListText(rs, capacity) && text == RangeText(r, capacity)
    requires sep == if rs == [] then "" else ","
    ensures os + sep + text == ListText(rs + [r], capacity)
  {
    assert (rs + [r])[..|rs|] == rs;
    if rs == [] {
      assert os + sep + text == text;
    }
  }
}
