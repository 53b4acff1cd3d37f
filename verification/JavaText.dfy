/** The Java text operations the telephony code relies on: String.split with a
    one-character separator, TextUtils.join and Integer.parseInt. */
module JavaText {

  datatype Option<+T> = None | Some(value: T)

  /** The pieces between the separators, empty ones included. */
  function Pieces(s: string, c: char): (ps: seq<string>)
    ensures |ps| >= 1
  {
    if s == "" then [""]
    else
      var rest := Pieces(s[1..], c);
      if s[0] == c then [""] + rest else [[s[0]] + rest[0]] + rest[1..]
  }

  function DropTrailingEmpty(xs: seq<string>): seq<string> {
    if |xs| > 0 && xs[|xs| - 1] == "" then DropTrailingEmpty(xs[..|xs| - 1]) else xs
  }

  /** String.split: the string itself when there is no separator, otherwise the
      pieces without the empty ones at the end. */
  function Split(s: string, c: char): seq<string> {
    if c !in s then [s] else DropTrailingEmpty(Pieces(s, c))
  }

  /** TextUtils.join. */
  function Join(xs: seq<string>, c: char): string {
    if |xs| == 0 then ""
    else if |xs| == 1 then xs[0]
    else xs[0] + [c] + Join(xs[1..], c)
  }

  function NonEmpty(xs: seq<string>): seq<string> {
    if xs == [] then []
    else if xs[0] == "" then NonEmpty(xs[1..])
    else [xs[0]] + NonEmpty(xs[1..])
  }

  ghost predicate FreeOf(xs: seq<string>, c: char) {
    forall i :: 0 <= i < |xs| ==> c !in xs[i]
  }

  ghost predicate AllNonEmpty(xs: seq<string>) {
    forall i :: 0 <= i < |xs| ==> xs[i] != ""
  }

  // ---- Split and join undo each other ----

  lemma {:induction false} JoinPrepended(x: char, rest: seq<string>, c: char)
    requires rest != []
    ensures Join([""] + rest, c) == [c] + Join(rest, c)
    ensures Join([[x] + rest[0]] + rest[1..], c) == [x] + Join(rest, c)
  {
  }

  lemma {:induction false} JoinOfPieces(s: string, c: char)
    ensures FreeOf(Pieces(s, c), c)
    ensures Join(Pieces(s, c), c) == s
  {
    if s != "" {
      JoinOfPieces(s[1..], c);
      JoinPrepended(s[0], Pieces(s[1..], c), c);
      assert s == [s[0]] + s[1..];
    }
  }

  lemma {:induction false} PiecesAfter(x: string, rest: string, c: char)
    requires c !in x
    ensures Pieces(x + [c] + rest, c) == [x] + Pieces(rest, c)
  {
    var s := x + [c] + rest;
    if x == "" {
      assert s[1..] == rest;
    } else {
      assert s[1..] == x[1..] + [c] + rest;
      PiecesAfter(x[1..], rest, c);
      assert [s[0]] + x[1..] == x;
    }
  }

  lemma {:induction false} PiecesOfFree(x: string, c: char)
    requires c !in x
    ensures Pieces(x, c) == [x]
  {
    if x != "" {
      PiecesOfFree(x[1..], c);
      assert [x[0]] + x[1..] == x;
    }
  }

  lemma {:induction false} PiecesOfJoin(xs: seq<string>, c: char)
    requires xs != [] && FreeOf(xs, c)
    ensures Pieces(Join(xs, c), c) == xs
  {
    if |xs| == 1 {
      PiecesOfFree(xs[0], c);
    } else {
      PiecesOfJoin(xs[1..], c);
      PiecesAfter(xs[0], Join(xs[1..], c), c);
    }
  }

  lemma {:induction false} NonEmptyAppend(xs: seq<string>, ys: seq<string>)
    ensures NonEmpty(xs + ys) == NonEmpty(xs) + NonEmpty(ys)
  {
    if xs == [] {
      assert xs + ys == ys;
    } else {
      assert (xs + ys)[1..] == xs[1..] + ys;
      NonEmptyAppend(xs[1..], ys);
    }
  }

  lemma {:induction false} NonEmptyDropTrailing(xs: seq<string>)
    ensures NonEmpty(DropTrailingEmpty(xs)) == NonEmpty(xs)
  {
    if |xs| > 0 && xs[|xs| - 1] == "" {
      NonEmptyDropTrailing(xs[..|xs| - 1]);
      NonEmptyAppend(xs[..|xs| - 1], [""]);
      assert xs == xs[..|xs| - 1] + [""];
    }
  }

  lemma {:induction false} NonEmptySplit(s: string, c: char)
    ensures NonEmpty(Split(s, c)) == NonEmpty(Pieces(s, c))
  {
    if c !in s { PiecesOfFree(s, c); } else { NonEmptyDropTrailing(Pieces(s, c)); }
  }

  lemma {:induction false} NonEmptyMembers(xs: seq<string>)
    ensures AllNonEmpty(NonEmpty(xs))
    ensures forall x :: x in NonEmpty(xs) <==> x in xs && x != ""
  {
    if xs != [] { NonEmptyMembers(xs[1..]); }
  }

  lemma {:induction false} NonEmptyOfAllNonEmpty(xs: seq<string>)
    requires AllNonEmpty(xs)
    ensures NonEmpty(xs) == xs
  {
    if xs != [] { NonEmptyOfAllNonEmpty(xs[1..]); }
  }

  /** For every list of separator-free pieces, the non-empty pieces survive a
      join followed by a split, in order and with their repetitions. */
  lemma {:induction false} SplitOfJoin(xs: seq<string>, c: char)
    requires FreeOf(xs, c)
    ensures NonEmpty(Split(Join(xs, c), c)) == NonEmpty(xs)
  {
    NonEmptySplit(Join(xs, c), c);
    if xs != [] { PiecesOfJoin(xs, c); }
  }

  /** With no empty piece nothing is lost or filtered at all. */
  lemma {:induction false} SplitOfJoinExact(xs: seq<string>, c: char)
    requires xs != [] && FreeOf(xs, c) && AllNonEmpty(xs)
    ensures Split(Join(xs, c), c) == xs
    ensures Join(xs, c) != ""
  {
    PiecesOfJoin(xs, c);
    if c !in Join(xs, c) { PiecesOfFree(Join(xs, c), c); }
  }

  lemma {:induction false} SplitPiecesFree(s: string, c: char)
    ensures FreeOf(NonEmpty(Split(s, c)), c)
  {
    NonEmptySplit(s, c);
    JoinOfPieces(s, c);
    NonEmptyMembers(Pieces(s, c));
    forall i | 0 <= i < |NonEmpty(Split(s, c))| ensures c !in NonEmpty(Split(s, c))[i] {
      assert NonEmpty(Split(s, c))[i] in Pieces(s, c);
    }
  }

  // ---- Trailing separators ----

  lemma {:induction false} JoinGrows(xs: seq<string>, x: char, c: char)
    requires xs != []
    ensures Join(xs + [""], c) == Join(xs, c) + [c]
    ensures Join(xs[..|xs| - 1] + [xs[|xs| - 1] + [x]], c) == Join(xs, c) + [x]
  {
    var n := |xs| - 1;
    if n > 0 {
      JoinGrows(xs[1..], x, c);
      assert (xs + [""])[1..] == xs[1..] + [""];
      assert (xs[..n] + [xs[n] + [x]])[1..] == xs[1..][..n - 1] + [xs[1..][n - 1] + [x]];
    }
  }

  lemma {:induction false} PiecesOneMore(s: string, x: char, c: char)
    ensures var ps := Pieces(s, c);
      Pieces(s + [x], c) == if x == c then ps + [""] else ps[..|ps| - 1] + [ps[|ps| - 1] + [x]]
  {
    var ps := Pieces(s, c);
    JoinOfPieces(s, c);
    JoinGrows(ps, x, c);
    PiecesOfJoin(if x == c then ps + [""] else ps[..|ps| - 1] + [ps[|ps| - 1] + [x]], c);
  }

  /** One more separator at the end changes nothing once there is one; the first
      one cuts an empty string away altogether. */
  lemma {:induction false} SplitDropsLastSeparator(s: string, c: char)
    ensures Split(s + [c], c) == if c in s then Split(s, c) else if s == "" then [] else [s]
  {
    var ps := Pieces(s, c);
    PiecesOneMore(s, c, c);
    assert (ps + [""])[..|ps|] == ps && (s + [c])[|s|] == c;
    if c !in s {
      PiecesOfFree(s, c);
      assert [s][..0] == [] && DropTrailingEmpty([]) == [];
      assert DropTrailingEmpty([s]) == if s == "" then [] else [s];
    }
  }

  /** Unless the text ends in a separator, no piece is dropped. */
  lemma {:induction false} SplitKeepsAll(s: string, c: char)
    requires c in s && s[|s| - 1] != c
    ensures Split(s, c) == Pieces(s, c) && Split(s, c)[|Split(s, c)| - 1] != ""
  {
    var front := s[..|s| - 1];
    assert s == front + [s[|s| - 1]];
    PiecesOneMore(front, s[|s| - 1], c);
  }

  // ---- Integer.parseInt on ASCII digits ----

  function DigitsValue(s: string): Option<nat> {
    if s == "" then Some(0)
    else
      var d := s[|s| - 1];
      var prev := DigitsValue(s[..|s| - 1]);
      if prev.None? || !('0' <= d <= '9') then None
      else Some(prev.value * 10 + (d as int - '0' as int))
  }

  /** None stands for NumberFormatException: no digit, a stray character, or a
      value outside 32 bits. */
  function ParseInt(s: string): Option<int> {
    if s == "" then None
    else
      var signed := s[0] == '-' || s[0] == '+';
      var digits := if signed then s[1..] else s;
      if digits == "" || DigitsValue(digits).None? then None
      else
        var magnitude: int := DigitsValue(digits).value;
        var v := if s[0] == '-' then 0 - magnitude else magnitude;
        if -0x8000_0000 <= v <= 0x7FFF_FFFF then Some(v) else None
  }

  /** A sign may stand in front of the digits, and the value must fit 32 bits. */
  lemma {:induction false} ParseIntExactly(digits: string)
    requires digits != "" && DigitsValue(digits).Some?
    ensures var n := DigitsValue(digits).value;
      && ParseInt(digits) == ParseInt("+" + digits) == (if n <= 2147483647 then Some(n) else None)
      && ParseInt("-" + digits) == if n <= 2147483648 then Some(0 - n) else None
  {
    FirstIsDigit(digits);
    assert ("+" + digits)[1..] == digits && ("-" + digits)[1..] == digits;
  }

  lemma {:induction false} FirstIsDigit(digits: string)
    requires digits != "" && DigitsValue(digits).Some?
    ensures '0' <= digits[0] <= '9'
  {
    if |digits| > 1 { FirstIsDigit(digits[..|digits| - 1]); }
  }
}
