/**
 * What the text of a cpu set looks like, said about its characters and its
 * comma-separated pieces: which numbers are in it, and where the dashes are.
 */
module PrintedText {
  import opened ListFormat
  import opened AcceptedText

  // ---------------------------------------------------------------------
  // Characters and numbers
  // ---------------------------------------------------------------------

  /** The value of a digit is its place among the ten digits. */
  lemma DigitPlaces(c: char)
    ensures IsDigit(c) <==> c in "0123456789"
    ensures IsDigit(c) ==> DigitValue(c) < 10 && "0123456789"[DigitValue(c)] == c
  {
  }

  /** The blank characters of the C locale. */
  lemma BlankCharacters(c: char)
    ensures IsSpace(c) <==> c in " \t\n\r\U{000B}\U{000C}"
  {
  }

  /** A number is printed without leading zeros, and that is its only such text. */
  lemma {:induction false} DecimalCanonical(n: nat, s: string)
    ensures n > 0 ==> Decimal(n)[0] != '0'
    ensures Decimal(0) == "0"
    ensures s != "" && AllDigits(s) && DecimalValue(s) == n && (s[0] != '0' || |s| == 1) ==> s == Decimal(n)
    decreases n + |s|
  {
    if n >= 10 {
      DecimalCanonical(n / 10, "");
    }
    if s != "" && AllDigits(s) && DecimalValue(s) == n && (s[0] != '0' || |s| == 1) {
      LastDigit(s, n);
      if |s| > 1 {
        var front := s[..|s| - 1];
        LeadingDigit(front);
        DecimalCanonical(n / 10, front);
        assert s == front + [s[|s| - 1]];
      }
    }
  }

  lemma LastDigit(s: string, n: nat)
    requires s != "" && AllDigits(s) && DecimalValue(s) == n
    ensures DecimalValue(s[..|s| - 1]) == n / 10
    ensures s[|s| - 1] == ('0' as int + n % 10) as char
  {
    var last := s[|s| - 1];
    DigitPlaces(last);
    TenFold(DecimalValue(s[..|s| - 1]), DigitValue(last), n);
  }

  lemma TenFold(front: nat, digit: nat, n: nat)
    requires n == 10 * front + digit && digit < 10
    ensures front == n / 10 && digit == n % 10
  {
  }

  lemma {:induction false} LeadingDigit(s: string)
    requires s != "" && AllDigits(s) && s[0] != '0'
    ensures DecimalValue(s) > 0
  {
    if |s| > 1 {
      LeadingDigit(s[..|s| - 1]);
    }
  }

  // ---------------------------------------------------------------------
  // Pieces
  // ---------------------------------------------------------------------

  /** The piece of a range: one number for a single cpu below the last, two otherwise. */
  ghost predicate PieceOf(piece: string, r: Range, capacity: nat) {
    && (r.lo == r.hi && r.hi + 1 < capacity ==> piece == Decimal(r.lo))
    && (r.lo < r.hi || r.hi + 1 == capacity ==> piece == Decimal(r.lo) + "-" + Decimal(r.hi))
  }

  ghost predicate PiecesOf(pieces: seq<string>, rs: seq<Range>, capacity: nat) {
    && |pieces| == |rs|
    && forall k | 0 <= k < |rs| :: PieceOf(pieces[k], rs[k], capacity)
  }

  ghost predicate InOrder(rs: seq<Range>, capacity: nat) {
    forall k | 0 <= k < |rs| :: rs[k].lo <= rs[k].hi < capacity
  }

  lemma {:induction false} TerminatedAppend(pieces: seq<string>, last: string)
    ensures Terminated(pieces + [last]) == Terminated(pieces) + last + ","
  {
    if pieces != [] {
      TerminatedAppend(pieces[1..], last);
      assert (pieces + [last])[1..] == pieces[1..] + [last];
    }
  }

  /** The pieces before the last one, and the last one. */
  lemma LastPiece(rs: seq<Range>, pieces: seq<string>, capacity: nat, n: nat)
    requires InOrder(rs, capacity) && PiecesOf(pieces, rs, capacity) && |rs| == n + 1
    ensures InOrder(rs[..n], capacity) && PiecesOf(pieces[..n], rs[..n], capacity)
    ensures rs[n].lo <= rs[n].hi < capacity && PieceOf(pieces[n], rs[n], capacity)
    ensures Terminated(pieces) == Terminated(pieces[..n]) + pieces[n] + ","
  {
    TerminatedAppend(pieces[..n], pieces[n]);
    assert pieces == pieces[..n] + [pieces[n]];
  }

  lemma PieceIsText(piece: string, r: Range, capacity: nat)
    requires r.lo <= r.hi < capacity && PieceOf(piece, r, capacity)
    ensures piece == RangeText(r, capacity)
  {
  }

  lemma {:induction false} ListTextPieces(rs: seq<Range>, pieces: seq<string>, capacity: nat)
    requires InOrder(rs, capacity) && PiecesOf(pieces, rs, capacity)
    ensures Terminated(pieces) == if rs == [] then "" else ListText(rs, capacity) + ","
  {
    if rs != [] {
      var n := |rs| - 1;
      LastPiece(rs, pieces, capacity, n);
      PieceIsText(pieces[n], rs[n], capacity);
      ListTextPieces(rs[..n], pieces[..n], capacity);
    }
  }

  /** The pieces of the printed text are those of the ranges of the set, in order. */
  lemma PrintedPieces(cpus: seq<bool>, rs: seq<Range>, pieces: seq<string>)
    requires Separated(rs, 0) && Describes(rs, cpus, 0)
    requires PiecesOf(pieces, rs, |cpus|)
    ensures Printed(cpus) == "" <==> rs == []
    ensures rs != [] ==> Printed(cpus) + "," == Terminated(pieces)
  {
    PrintedCanonical(cpus, rs);
    ListTextPieces(rs, pieces, |cpus|);
    if rs != [] {
      ListTextEnd(rs, |cpus|);
    }
  }

  /** A set of consecutive cpus is printed as two numbers unless it is a single one below the last. */
  lemma PrintedRange(cpus: seq<bool>, lo: nat, hi: nat)
    requires lo <= hi < |cpus| && forall j | 0 <= j < |cpus| :: cpus[j] <==> lo <= j <= hi
    ensures lo == hi < |cpus| - 1 ==> Printed(cpus) == Decimal(lo)
    ensures lo < hi || hi == |cpus| - 1 ==> Printed(cpus) == Decimal(lo) + "-" + Decimal(hi)
  {
    var rs := [Range(lo, hi)];
    var piece := if lo == hi < |cpus| - 1 then Decimal(lo) else Decimal(lo) + "-" + Decimal(hi);
    forall j | 0 <= j < |cpus|
      ensures cpus[j] <==> Covers(rs, j)
    {
      CoversFirstOrRest(rs, j);
    }
    PrintedPieces(cpus, rs, [piece]);
    assert Terminated([piece]) == piece + ",";
    assert Printed(cpus) == (piece + ",")[..|piece|];
  }

  // ---------------------------------------------------------------------
  // Dashes and commas
  // ---------------------------------------------------------------------

  /** The number of ranges that are longer than one cpu or end at the last one. */
  ghost function Dashed(rs: seq<Range>, capacity: nat): nat {
    if rs == [] then 0
    else
      var last := rs[|rs| - 1];
      Dashed(rs[..|rs| - 1], capacity) + if last.lo != last.hi || last.hi + 1 == capacity then 1 else 0
  }

  lemma PieceMarks(piece: string, r: Range, capacity: nat)
    requires r.lo <= r.hi < capacity && PieceOf(piece, r, capacity)
    ensures multiset(piece)['-'] == if r.lo != r.hi || r.hi + 1 == capacity then 1 else 0
    ensures ',' !in piece
  {
    NoMarks(r.lo);
    NoMarks(r.hi);
  }

  lemma NoMarks(n: nat)
    ensures '-' !in Decimal(n) && ',' !in Decimal(n)
    ensures multiset(Decimal(n))['-'] == 0 && multiset(Decimal(n))[','] == 0
  {
    assert AllDigits(Decimal(n));
    forall c | c == '-' || c == ','
      ensures c !in Decimal(n)
    {
      assert !IsDigit(c);
    }
  }

  /** A piece, and the comma after it, add to the characters. */
  lemma MarksAppend(text: string, before: string, piece: string, c: char)
    requires text == before + piece + ","
    ensures multiset(text)[c] == multiset(before)[c] + multiset(piece)[c] + if c == ',' then 1 else 0
  {
  }

  ghost predicate Marked(text: string, dashes: nat, commas: nat) {
    multiset(text)['-'] == dashes && multiset(text)[','] == commas
  }

  lemma MarkedAppend(text: string, before: string, piece: string, dashes: nat, commas: nat, dash: nat)
    requires text == before + piece + "," && Marked(before, dashes, commas)
    requires multiset(piece)['-'] == dash && ',' !in piece
    ensures Marked(text, dashes + dash, commas + 1)
  {
    MarksAppend(text, before, piece, '-');
    MarksAppend(text, before, piece, ',');
  }

  lemma {:induction false} TerminatedMarks(rs: seq<Range>, pieces: seq<string>, capacity: nat)
    requires InOrder(rs, capacity) && PiecesOf(pieces, rs, capacity)
    ensures Marked(Terminated(pieces), Dashed(rs, capacity), |rs|)
  {
    if rs != [] {
      var n, dash := |rs| - 1, multiset(pieces[|rs| - 1])['-'];
      LastPiece(rs, pieces, capacity, n);
      TerminatedMarks(rs[..n], pieces[..n], capacity);
      PieceMarks(pieces[n], rs[n], capacity);
      MarkedAppend(Terminated(pieces), Terminated(pieces[..n]), pieces[n], Dashed(rs[..n], capacity), n, dash);
    }
  }

  function Piece(r: Range, capacity: nat): (piece: string)
    ensures r.lo <= r.hi < capacity ==> PieceOf(piece, r, capacity)
  {
    if r.lo == r.hi && r.hi + 1 < capacity then Decimal(r.lo) else Decimal(r.lo) + "-" + Decimal(r.hi)
  }

  /** The text has a dash for every range longer than one cpu or at the end, and a comma between ranges. */
  lemma PrintedMarks(cpus: seq<bool>, rs: seq<Range>)
    requires Separated(rs, 0) && Describes(rs, cpus, 0)
    ensures multiset(Printed(cpus))['-'] == Dashed(rs, |cpus|)
    ensures multiset(Printed(cpus))[','] == if rs == [] then 0 else |rs| - 1
  {
    var pieces := seq(|rs|, k requires 0 <= k < |rs| => Piece(rs[k], |cpus|));
    PrintedPieces(cpus, rs, pieces);
    TerminatedMarks(rs, pieces, |cpus|);
    assert multiset(Printed(cpus) + ",") == multiset(Printed(cpus)) + multiset{','};
  }
}
