/**
 * Which texts the parser of cpu sets accepts, and what they mean, said about
 * their comma-separated pieces without running the parser.
 */
module AcceptedText {
  import opened Common
  import opened ListFormat

  // ---------------------------------------------------------------------
  // Numbers
  // ---------------------------------------------------------------------

  ghost predicate AllSpaces(s: string) {
    forall i | 0 <= i < |s| :: IsSpace(s[i])
  }

  /** `s` is blank space, perhaps a sign, and digits, with the value `n`. */
  ghost predicate Numeral(s: string, spaces: string, sign: string, digits: string, n: int) {
    && s == spaces + sign + digits && AllSpaces(spaces)
    && (sign == "" || sign == "+" || sign == "-")
    && digits != "" && AllDigits(digits)
    && n == Signed(sign, DecimalValue(digits))
  }

  function Signed(sign: string, value: int): int {
    if sign == "-" then -value else value
  }

  /** `s` is a number in the range of `int`. */
  ghost predicate IsNumber(s: string, n: int) {
    && -INT_MAX - 1 <= n <= INT_MAX
    && exists spaces, sign, digits :: Numeral(s, spaces, sign, digits, n)
  }

  lemma {:induction false} SpacesSkipped(s: string)
    ensures var t := SkipSpaces(s);
            && |t| <= |s| && AllSpaces(s[..|s| - |t|]) && s == s[..|s| - |t|] + t
  {
    if s != [] && IsSpace(s[0]) {
      var t := SkipSpaces(s);
      SpacesSkipped(s[1..]);
      assert s[..|s| - |t|] == [s[0]] + s[1..][..|s| - 1 - |t|];
    }
  }

  lemma {:induction false} SkipLeading(spaces: string, t: string)
    requires AllSpaces(spaces) && (t == [] || !IsSpace(t[0]))
    ensures SkipSpaces(spaces + t) == t
  {
    if spaces == [] {
      assert spaces + t == t;
    } else {
      assert IsSpace(spaces[0]) && (spaces + t)[1..] == spaces[1..] + t;
      SkipLeading(spaces[1..], t);
    }
  }

  lemma NumberRead(s: string, spaces: string, sign: string, digits: string, n: int)
    requires Numeral(s, spaces, sign, digits, n) && -INT_MAX - 1 <= n <= INT_MAX
    ensures StrToNum(s) == Some(n)
  {
    var t := sign + digits;
    assert s == spaces + t;
    assert sign == "" ==> t == digits;
    assert IsDigit(digits[0]);
    SkipLeading(spaces, t);
    assert sign != "" ==> t[0] == sign[0] && t[1..] == digits;
  }

  lemma ReadIsNumber(s: string)
    requires StrToNum(s).Some?
    ensures IsNumber(s, StrToNum(s).value)
  {
    SpacesSkipped(s);
    var t := SkipSpaces(s);
    var sign, digits := SignOf(t), DigitsOf(t);
    SplitSign(t);
    Regroup(s[..|s| - |t|], sign, digits);
    assert Numeral(s, s[..|s| - |t|], sign, digits, StrToNum(s).value);
  }

  function SignOf(t: string): string {
    if t != [] && (t[0] == '-' || t[0] == '+') then [t[0]] else ""
  }

  function DigitsOf(t: string): string {
    if t != [] && (t[0] == '-' || t[0] == '+') then t[1..] else t
  }

  lemma SplitSign(t: string)
    ensures t == SignOf(t) + DigitsOf(t)
  {
  }

  lemma Regroup(a: string, b: string, c: string)
    ensures a + b + c == a + (b + c)
  {
  }

  /** The texts that are read as numbers, and their values. */
  lemma NumberText(s: string, n: int)
    ensures StrToNum(s) == Some(n) <==> IsNumber(s, n)
  {
    if StrToNum(s) == Some(n) {
      ReadIsNumber(s);
    }
    if IsNumber(s, n) {
      var spaces, sign, digits :| Numeral(s, spaces, sign, digits, n);
      NumberRead(s, spaces, sign, digits, n);
    }
  }

  // ---------------------------------------------------------------------
  // Pieces
  // ---------------------------------------------------------------------

  /** Two numbers joined by a dash. */
  ghost predicate IsPair(piece: string, a: string, b: string, lo: int, hi: int) {
    piece == a + "-" + b && '-' !in a && '-' !in b && IsNumber(a, lo) && IsNumber(b, hi)
  }

  /** A piece without a dash is a number; one with a dash is two. */
  ghost predicate Means(piece: string, lo: int, hi: int) {
    || ('-' !in piece && IsNumber(piece, lo) && lo == hi)
    || exists a, b :: IsPair(piece, a, b, lo, hi)
  }

  /** A range in the capacity; the low end may be one above the high end, and the range is then empty. */
  predicate InCapacity(lo: int, hi: int, capacity: nat) {
    0 <= lo <= hi + 1 && 0 <= hi < capacity
  }

  ghost predicate Accepted(piece: string, capacity: nat) {
    exists lo, hi :: Means(piece, lo, hi) && InCapacity(lo, hi, capacity)
  }

  ghost predicate Names(piece: string, j: int) {
    exists lo, hi :: Means(piece, lo, hi) && lo <= j <= hi
  }

  /** A piece has one meaning. */
  lemma OneMeaning(piece: string, lo1: int, hi1: int, lo2: int, hi2: int)
    requires Means(piece, lo1, hi1) && Means(piece, lo2, hi2)
    ensures lo1 == lo2 && hi1 == hi2
  {
    if '-' in piece {
      var a1, b1 :| IsPair(piece, a1, b1, lo1, hi1);
      var a2, b2 :| IsPair(piece, a2, b2, lo2, hi2);
      SplitAtDash(piece, a1, b1);
      SplitAtDash(piece, a2, b2);
      NumberText(a1, lo1);
      NumberText(a2, lo2);
      NumberText(b1, hi1);
      NumberText(b2, hi2);
    } else {
      NumberText(piece, lo1);
      NumberText(piece, lo2);
    }
  }

  lemma SplitAtDash(piece: string, a: string, b: string)
    requires piece == a + "-" + b && '-' !in a
    ensures Find(piece, '-') == |a| && piece[..|a|] == a && piece[|a| + 1..] == b
  {
    assert piece[..|a|] == a && piece[|a|] == '-';
    FindUnique(piece, '-', |a|);
  }

  /** What one element does: it is added as a range, or refused. */
  lemma ElementMeans(cpus: seq<bool>, piece: string)
    ensures AddElement(cpus, piece).Ok? <==> Accepted(piece, |cpus|)
    ensures AddElement(cpus, piece).Ok? ==>
              && |AddElement(cpus, piece).value| == |cpus|
              && forall j | 0 <= j < |cpus| ::
                   AddElement(cpus, piece).value[j] <==> cpus[j] || Names(piece, j)
  {
    if AddElement(cpus, piece).Ok? {
      var lo, hi := AddedMeaning(cpus, piece);
      forall j | 0 <= j < |cpus|
        ensures AddElement(cpus, piece).value[j] <==> cpus[j] || Names(piece, j)
      {
        if Names(piece, j) {
          var lo2, hi2 :| Means(piece, lo2, hi2) && lo2 <= j <= hi2;
          OneMeaning(piece, lo, hi, lo2, hi2);
        }
      }
    }
    if Accepted(piece, |cpus|) {
      var lo, hi :| Means(piece, lo, hi) && InCapacity(lo, hi, |cpus|);
      MeaningAdded(cpus, piece, lo, hi);
    }
  }

  lemma AddedMeaning(cpus: seq<bool>, piece: string) returns (lo: int, hi: int)
    requires AddElement(cpus, piece).Ok?
    ensures Means(piece, lo, hi) && InCapacity(lo, hi, |cpus|)
    ensures AddElement(cpus, piece).value == WithRange(cpus, lo, hi)
  {
    var dash := Find(piece, '-');
    if dash == |piece| {
      assert piece[..dash] == piece;
      lo, hi := StrToNum(piece).value, StrToNum(piece).value;
      NumberText(piece, lo);
    } else {
      var a, b := piece[..dash], piece[dash + 1..];
      lo, hi := StrToNum(a).value, StrToNum(b).value;
      NumberText(a, lo);
      NumberText(b, hi);
      assert piece == a + "-" + b;
      assert IsPair(piece, a, b, lo, hi);
    }
  }

  lemma MeaningAdded(cpus: seq<bool>, piece: string, lo: int, hi: int)
    requires Means(piece, lo, hi) && InCapacity(lo, hi, |cpus|)
    ensures AddElement(cpus, piece) == Ok(WithRange(cpus, lo, hi))
  {
    if '-' in piece {
      var a, b :| IsPair(piece, a, b, lo, hi);
      SplitAtDash(piece, a, b);
      NumberText(a, lo);
      NumberText(b, hi);
    } else {
      FindUnique(piece, '-', |piece|);
      NumberText(piece, lo);
    }
  }

  // ---------------------------------------------------------------------
  // Texts
  // ---------------------------------------------------------------------

  /** Every piece followed by a comma. */
  function Terminated(pieces: seq<string>): string {
    if pieces == [] then [] else pieces[0] + "," + Terminated(pieces[1..])
  }

  /** The pieces are those of the text, in which the last one need not be followed by a comma. */
  ghost predicate ArePieces(pieces: seq<string>, text: string) {
    && (forall i | 0 <= i < |pieces| :: ',' !in pieces[i])
    && Terminated(pieces) == Completed(text)
  }

  /** The text with a comma after its last piece. */
  function Completed(text: string): string {
    if text == "" || text[|text| - 1] == ',' then text else text + ","
  }

  lemma CompletedSplit(text: string, comma: nat)
    requires comma < |text| && text[comma] == ','
    ensures Completed(text) == text[..comma] + "," + Completed(text[comma + 1..])
  {
    var rest := text[comma + 1..];
    assert text == text[..comma] + "," + rest;
    assert rest != "" ==> rest[|rest| - 1] == text[|text| - 1];
  }

  lemma CompletedWhole(text: string)
    requires text != "" && ',' !in text
    ensures Completed(text) == text + "," + Completed("")
  {
  }

  ghost predicate AllAccepted(pieces: seq<string>, capacity: nat) {
    forall i | 0 <= i < |pieces| :: Accepted(pieces[i], capacity)
  }

  ghost predicate SomeNames(pieces: seq<string>, j: int) {
    exists i | 0 <= i < |pieces| :: Names(pieces[i], j)
  }

  /** Every text has pieces. */
  lemma {:induction false} PiecesExist(text: string) returns (pieces: seq<string>)
    ensures ArePieces(pieces, text)
    decreases |text|
  {
    if text == "" {
      pieces := [];
    } else {
      var comma := Find(text, ',');
      var rest := if comma < |text| then text[comma + 1..] else [];
      var more := PiecesExist(rest);
      pieces := [text[..comma]] + more;
      OneMorePiece(text, rest, more);
    }
  }

  lemma OneMorePiece(text: string, rest: string, more: seq<string>)
    requires text != "" && ArePieces(more, rest)
    requires var comma := Find(text, ','); rest == if comma < |text| then text[comma + 1..] else []
    ensures ArePieces([text[..Find(text, ',')]] + more, text)
  {
    var comma := Find(text, ',');
    TerminatedCons(text[..comma], more);
    if comma < |text| {
      CompletedSplit(text, comma);
    } else {
      assert text[..comma] == text;
      CompletedWhole(text);
    }
    PiecesCons(text[..comma], more);
  }

  lemma TerminatedCons(p: string, more: seq<string>)
    ensures Terminated([p] + more) == p + "," + Terminated(more)
  {
    assert ([p] + more)[1..] == more;
  }

  lemma PiecesCons(p: string, more: seq<string>)
    requires ',' !in p && forall i | 0 <= i < |more| :: ',' !in more[i]
    ensures forall i | 0 <= i < |more| + 1 :: ',' !in ([p] + more)[i]
  {
  }

  /** The first piece ends at the first comma, and the others are the pieces of the rest. */
  lemma FirstPiece(pieces: seq<string>, text: string)
    requires ArePieces(pieces, text) && text != ""
    ensures pieces != []
    ensures var comma := Find(text, ',');
            && text[..comma] == pieces[0]
            && ArePieces(pieces[1..], if comma < |text| then text[comma + 1..] else [])
  {
    var comma := Find(text, ',');
    if comma < |text| {
      CompletedSplit(text, comma);
      SplitUnique(text[..comma], Completed(text[comma + 1..]), pieces[0], Terminated(pieces[1..]));
    } else {
      assert text[..comma] == text;
      CompletedWhole(text);
      SplitUnique(text, Completed(""), pieces[0], Terminated(pieces[1..]));
    }
  }

  lemma SplitUnique(a: string, b: string, c: string, d: string)
    requires a + "," + b == c + "," + d && ',' !in a && ',' !in c
    ensures a == c && b == d
  {
    SplitFirst(a + "," + b, a, b);
    SplitFirst(a + "," + b, c, d);
  }

  lemma SplitFirst(full: string, p: string, more: string)
    requires full == p + "," + more && ',' !in p
    ensures |p| < |full| && full[..|p|] == p && full[|p|] == ',' && full[|p| + 1..] == more
    ensures Find(full, ',') == |p|
  {
    assert full[..|p|] == p && full[|p|] == ',';
    FindUnique(full, ',', |p|);
  }

  /**
   * The parser accepts a text exactly when it accepts every piece of it, and
   * adds the cpus that some piece names.
   */
  lemma {:induction false} TextMeans(cpus: seq<bool>, text: string, pieces: seq<string>)
    requires ArePieces(pieces, text)
    ensures AddText(cpus, text).Ok? <==> AllAccepted(pieces, |cpus|)
    ensures AddText(cpus, text).Ok? ==>
              && |AddText(cpus, text).value| == |cpus|
              && forall j | 0 <= j < |cpus| :: AddText(cpus, text).value[j] <==> cpus[j] || SomeNames(pieces, j)
    decreases |text|
  {
    if text == "" {
      assert pieces == [];
    } else {
      FirstPiece(pieces, text);
      var comma := Find(text, ',');
      var rest := if comma < |text| then text[comma + 1..] else [];
      ElementMeans(cpus, pieces[0]);
      var added := AddElement(cpus, pieces[0]);
      if added.Ok? {
        TextMeans(added.value, rest, pieces[1..]);
        AllAcceptedSplit(pieces, |cpus|);
        forall j | 0 <= j < |cpus| && AddText(cpus, text).Ok?
          ensures AddText(cpus, text).value[j] <==> cpus[j] || SomeNames(pieces, j)
        {
          SomeNamesSplit(pieces, j);
        }
      }
    }
  }

  lemma AllAcceptedSplit(pieces: seq<string>, capacity: nat)
    requires pieces != []
    ensures AllAccepted(pieces, capacity) <==> Accepted(pieces[0], capacity) && AllAccepted(pieces[1..], capacity)
  {
    assert forall i | 0 < i < |pieces| :: pieces[i] == pieces[1..][i - 1];
  }

  lemma SomeNamesSplit(pieces: seq<string>, j: int)
    requires pieces != []
    ensures SomeNames(pieces, j) <==> Names(pieces[0], j) || SomeNames(pieces[1..], j)
  {
    assert forall i | 0 < i < |pieces| :: pieces[i] == pieces[1..][i - 1];
    if SomeNames(pieces[1..], j) {
      var i :| 0 <= i < |pieces[1..]| && Names(pieces[1..][i], j);
      assert Names(pieces[i + 1], j);
    }
  }

  /**
   * `parse` accepts a text if and only if every comma-separated piece is a
   * number below the capacity, or two numbers lo-hi with lo <= hi + 1 and hi
   * below the capacity; a comma after the last piece is ignored. The set is
   * the union of the pieces.
   */
  lemma ParsedMeans(text: string, capacity: nat, pieces: seq<string>)
    requires ArePieces(pieces, text)
    ensures Parsed(text, capacity).Ok? <==> AllAccepted(pieces, capacity)
    ensures Parsed(text, capacity).Ok? ==>
              && |Parsed(text, capacity).value| == capacity
              && forall j | 0 <= j < capacity :: Parsed(text, capacity).value[j] <==> SomeNames(pieces, j)
  {
    TextMeans(Empty(capacity), text, pieces);
  }

  // ---------------------------------------------------------------------
  // Refused texts
  // ---------------------------------------------------------------------

  /** Why a piece is refused: it is no number or range, or not one in the capacity, or its ends are reversed. */
  ghost predicate Refused(piece: string, capacity: nat, e: ParseError) {
    match e
    case InvalidArgument => forall lo, hi :: !Means(piece, lo, hi)
    case OutOfRange => exists lo, hi :: Means(piece, lo, hi) && (lo < 0 || hi < 0 || capacity <= hi)
    case RangeOverrun => exists lo, hi :: Means(piece, lo, hi) && 0 <= hi < capacity && hi + 1 < lo
  }

  /** The meaning of a piece, if it has one, decides what adding it does. */
  lemma MeaningDecides(cpus: seq<bool>, piece: string, lo: int, hi: int)
    requires Means(piece, lo, hi)
    ensures AddElement(cpus, piece)
            == if lo == hi && '-' !in piece then AddCpu(cpus, lo) else AddRange(cpus, lo, hi)
  {
    if '-' in piece {
      var a, b :| IsPair(piece, a, b, lo, hi);
      SplitAtDash(piece, a, b);
      NumberText(a, lo);
      NumberText(b, hi);
    } else {
      FindUnique(piece, '-', |piece|);
      NumberText(piece, lo);
    }
  }

  /** A piece whose numbers can be read has a meaning. */
  lemma ReadMeans(cpus: seq<bool>, piece: string) returns (lo: int, hi: int)
    requires AddElement(cpus, piece) != Err(InvalidArgument)
    ensures Means(piece, lo, hi)
  {
    var dash := Find(piece, '-');
    if dash == |piece| {
      assert piece[..dash] == piece;
      lo, hi := StrToNum(piece).value, StrToNum(piece).value;
      NumberText(piece, lo);
    } else {
      var a, b := piece[..dash], piece[dash + 1..];
      lo, hi := StrToNum(a).value, StrToNum(b).value;
      NumberText(a, lo);
      NumberText(b, hi);
      assert piece == a + "-" + b;
      PairMeans(a, b, lo, hi);
    }
  }

  /** Each exception is thrown for its own reason, and there is one reason for every refused piece. */
  lemma ElementRefused(cpus: seq<bool>, piece: string, e: ParseError)
    ensures AddElement(cpus, piece) == Err(e) <==> Refused(piece, |cpus|, e)
  {
    if lo, hi :| Means(piece, lo, hi) {
      MeaningDecides(cpus, piece, lo, hi);
      forall lo2, hi2 | Means(piece, lo2, hi2)
        ensures lo2 == lo && hi2 == hi
      {
        OneMeaning(piece, lo, hi, lo2, hi2);
      }
    } else if AddElement(cpus, piece) != Err(InvalidArgument) {
      var _, _ := ReadMeans(cpus, piece);
      assert false;
    }
  }

  lemma SomePiece(pieces: seq<string>, text: string)
    requires ArePieces(pieces, text) && pieces != []
    ensures text != ""
  {
    assert |Terminated(pieces)| > 0;
  }

  lemma TextStep(cpus: seq<bool>, text: string, piece: string, rest: string)
    requires text != "" && piece == text[..Find(text, ',')] && Accepted(piece, |cpus|)
    requires rest == if Find(text, ',') < |text| then text[Find(text, ',') + 1..] else []
    ensures AddElement(cpus, piece).Ok? && |AddElement(cpus, piece).value| == |cpus|
    ensures AddText(cpus, text) == AddText(AddElement(cpus, piece).value, rest)
  {
    ElementMeans(cpus, piece);
  }

  /** After the first piece the parser goes on with the others. */
  lemma AfterFirst(cpus: seq<bool>, text: string, pieces: seq<string>) returns (rest: string, added: seq<bool>)
    requires ArePieces(pieces, text) && pieces != [] && Accepted(pieces[0], |cpus|)
    ensures |added| == |cpus| && ArePieces(pieces[1..], rest)
    ensures AddText(cpus, text) == AddText(added, rest)
  {
    SomePiece(pieces, text);
    FirstPiece(pieces, text);
    rest := if Find(text, ',') < |text| then text[Find(text, ',') + 1..] else [];
    TextStep(cpus, text, pieces[0], rest);
    added := AddElement(cpus, pieces[0]).value;
  }

  /** The exception is the one for the first piece that is refused. */
  lemma {:induction false} FirstRefused(cpus: seq<bool>, text: string, pieces: seq<string>, i: nat, e: ParseError)
    requires ArePieces(pieces, text) && i < |pieces|
    requires AllAccepted(pieces[..i], |cpus|) && Refused(pieces[i], |cpus|, e)
    ensures AddText(cpus, text) == Err(e)
    decreases i
  {
    if i == 0 {
      SomePiece(pieces, text);
      FirstPiece(pieces, text);
      ElementRefused(cpus, pieces[0], e);
    } else {
      assert Accepted(pieces[..i][0], |cpus|);
      var rest, added := AfterFirst(cpus, text, pieces);
      assert pieces[1..][..i - 1] == pieces[..i][1..];
      AllAcceptedSplit(pieces[..i], |cpus|);
      FirstRefused(added, rest, pieces[1..], i - 1, e);
    }
  }

  // ---------------------------------------------------------------------
  // Beyond the documented grammar
  // ---------------------------------------------------------------------

  /** The empty text has no piece, and is the empty set. */
  lemma EmptyText(capacity: nat)
    ensures ArePieces([], "") && Parsed("", capacity) == Ok(Empty(capacity))
  {
  }

  /** Blanks and a plus sign before a number are accepted. */
  lemma BlanksAndSign(spaces: string, n: nat)
    requires AllSpaces(spaces) && n <= INT_MAX
    ensures IsNumber(spaces + "+" + Decimal(n), n)
  {
    DecimalRoundTrip(n);
    assert Numeral(spaces + "+" + Decimal(n), spaces, "+", Decimal(n), n);
  }

  lemma DecimalIsNumber(n: nat)
    requires n <= INT_MAX
    ensures IsNumber(Decimal(n), n) && '-' !in Decimal(n)
  {
    StrToNumDecimal(n);
    NumberText(Decimal(n), n);
    DecimalHasNoDash(n);
  }

  /** A range whose low end is one above its high end is accepted, and is empty. */
  lemma EmptyRange(n: nat, capacity: nat)
    requires n < capacity && n < INT_MAX
    ensures var piece := Decimal(n + 1) + "-" + Decimal(n);
            Accepted(piece, capacity) && forall j :: !Names(piece, j)
  {
    DecimalIsNumber(n);
    DecimalIsNumber(n + 1);
    PairMeans(Decimal(n + 1), Decimal(n), n + 1, n);
    NamesNothing(Decimal(n + 1) + "-" + Decimal(n), n + 1, n);
  }

  lemma PairMeans(a: string, b: string, lo: int, hi: int)
    requires IsNumber(a, lo) && IsNumber(b, hi) && '-' !in a && '-' !in b
    ensures Means(a + "-" + b, lo, hi)
  {
    assert IsPair(a + "-" + b, a, b, lo, hi);
  }

  lemma NamesNothing(piece: string, lo: int, hi: int)
    requires Means(piece, lo, hi) && hi < lo
    ensures forall j :: !Names(piece, j)
  {
    forall j
      ensures !Names(piece, j)
    {
      if Names(piece, j) {
        var lo2, hi2 :| Means(piece, lo2, hi2) && lo2 <= j <= hi2;
        OneMeaning(piece, lo, hi, lo2, hi2);
      }
    }
  }
}
