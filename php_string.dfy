/**
 * PHP's string built-ins as the framework uses them: `trim` with a
 * character list, `explode` (with and without a limit of two) and `implode`
 * on a one-character delimiter, and `str_replace` of a list of single
 * characters by one character.
 */
module PhpString {

  /** The characters `trim` strips when it is given no character list. */
  const Whitespace: set<char> := {' ', '\t', '\n', '\r', '\0', '\U{B}'}

  /** The number of occurrences of `c` in `s`. */
  function Count(c: char, s: string): nat
  {
    if s == [] then 0 else (if s[0] == c then 1 else 0) + Count(c, s[1..])
  }

  /** The position of the first `c` in `s`, or `|s|` when there is none. */
  function IndexOf(c: char, s: string): (i: nat)
    ensures i <= |s|
  {
    if s == [] then 0
    else if s[0] == c then 0
    else 1 + IndexOf(c, s[1..])
  }

  /** `IndexOf` finds the first occurrence, and finds none only when there is none. */
  lemma {:induction false} IndexOfShape(c: char, s: string)
    ensures c !in s[..IndexOf(c, s)]
    ensures IndexOf(c, s) < |s| ==> s[IndexOf(c, s)] == c
    ensures IndexOf(c, s) == |s| <==> c !in s
  {
    if s != [] && s[0] != c {
      IndexOfShape(c, s[1..]);
      assert s == [s[0]] + s[1..];
      assert s[..IndexOf(c, s)] == [s[0]] + s[1..][..IndexOf(c, s[1..])];
    }
  }

  /** The length of the longest prefix of `s` made of characters in `cs`. */
  function LeadingIn(s: string, cs: set<char>): (n: nat)
    ensures n <= |s|
  {
    if s == [] || s[0] !in cs then 0 else 1 + LeadingIn(s[1..], cs)
  }

  /** The length of the longest suffix of `s` made of characters in `cs`. */
  function TrailingIn(s: string, cs: set<char>): (n: nat)
    ensures n <= |s|
  {
    if s == [] || s[|s| - 1] !in cs then 0 else 1 + TrailingIn(s[..|s| - 1], cs)
  }

  /** `LeadingIn` counts exactly the characters in `cs` before the first one that is not. */
  lemma {:induction false} LeadingInShape(s: string, cs: set<char>)
    ensures forall i :: 0 <= i < LeadingIn(s, cs) ==> s[i] in cs
    ensures LeadingIn(s, cs) < |s| ==> s[LeadingIn(s, cs)] !in cs
  {
    if s != [] && s[0] in cs {
      LeadingInShape(s[1..], cs);
    }
  }

  /** `TrailingIn` counts exactly the characters in `cs` after the last one that is not. */
  lemma {:induction false} TrailingInShape(s: string, cs: set<char>)
    ensures forall i :: |s| - TrailingIn(s, cs) <= i < |s| ==> s[i] in cs
    ensures TrailingIn(s, cs) < |s| ==> s[|s| - 1 - TrailingIn(s, cs)] !in cs
  {
    if s != [] && s[|s| - 1] in cs {
      TrailingInShape(s[..|s| - 1], cs);
    }
  }

  /** `ltrim($s, $cs)`. */
  function TrimLeft(s: string, cs: set<char>): string
  {
    s[LeadingIn(s, cs)..]
  }

  /** `rtrim($s, $cs)`. */
  function TrimRight(s: string, cs: set<char>): string
  {
    s[..|s| - TrailingIn(s, cs)]
  }

  /** `trim($s, $cs)`. */
  function Trim(s: string, cs: set<char>): string
  {
    TrimRight(TrimLeft(s, cs), cs)
  }

  /**
   * The piece of `s` between a run of `lo` characters in `cs` at the front
   * and a run of `t` at the back, each ended by a character not in `cs`.
   */
  lemma TrimPiece(s: string, cs: set<char>, lo: nat, t: nat)
    requires lo + t <= |s|
    requires forall i :: 0 <= i < lo ==> s[i] in cs
    requires lo < |s| ==> s[lo] !in cs
    requires forall i :: |s| - t <= i < |s| ==> s[i] in cs
    requires lo + t < |s| ==> s[|s| - 1 - t] !in cs
    ensures var r := s[lo..|s| - t]; r != [] ==> r[0] !in cs && r[|r| - 1] !in cs
    ensures (forall i :: 0 <= i < |s| ==> s[i] in cs) <==> lo + t == |s|
  {
  }

  /** `TrailingInShape` for a suffix of `s`, stated on the positions of `s`. */
  lemma TrailingOfSuffix(s: string, cs: set<char>, lo: nat)
    requires lo <= |s|
    ensures var t := TrailingIn(s[lo..], cs);
      lo + t <= |s| && (forall i :: |s| - t <= i < |s| ==> s[i] in cs) &&
      (lo + t < |s| ==> s[|s| - 1 - t] !in cs)
  {
    var left := s[lo..];
    TrailingInShape(left, cs);
    var t := TrailingIn(left, cs);
    forall i | |s| - t <= i < |s| ensures s[i] in cs {
      assert s[i] == left[i - lo];
    }
  }

  /**
   * What `trim` leaves is a contiguous piece of `s`; everything cut away on
   * either side is in `cs`, the piece neither begins nor ends with one of
   * them, and it is empty exactly when `s` is made of them alone.
   */
  lemma TrimShape(s: string, cs: set<char>)
    ensures var r := Trim(s, cs); var lo := LeadingIn(s, cs);
      lo + |r| <= |s| && r == s[lo..lo + |r|] &&
      (forall i :: 0 <= i < lo ==> s[i] in cs) &&
      (forall i :: lo + |r| <= i < |s| ==> s[i] in cs)
    ensures var r := Trim(s, cs); r != [] ==> r[0] !in cs && r[|r| - 1] !in cs
    ensures (forall i :: 0 <= i < |s| ==> s[i] in cs) <==> Trim(s, cs) == []
  {
    LeadingInShape(s, cs);
    var lo := LeadingIn(s, cs);
    TrailingOfSuffix(s, cs, lo);
    var t := TrailingIn(s[lo..], cs);
    assert Trim(s, cs) == s[lo..][..|s| - lo - t] == s[lo..|s| - t];
    TrimPiece(s, cs, lo, t);
  }

  /** `implode($sep, $parts)`. */
  function Implode(sep: char, parts: seq<string>): string
  {
    if parts == [] then ""
    else if |parts| == 1 then parts[0]
    else parts[0] + [sep] + Implode(sep, parts[1..])
  }

  /**
   * `explode($sep, $s)`: the pieces of `s` between occurrences of `sep`.
   * There is one more piece than there are separators, no piece holds the
   * separator, and joining the pieces with it gives back `s`.
   */
  function Explode(sep: char, s: string): (parts: seq<string>)
    ensures |parts| == Count(sep, s) + 1
    ensures forall i :: 0 <= i < |parts| ==> sep !in parts[i]
    ensures Implode(sep, parts) == s
  {
    if s == [] then [""]
    else
      var rest := Explode(sep, s[1..]);
      if s[0] == sep then
        assert ([""] + rest)[1..] == rest;
        [""] + rest
      else
        var parts := [[s[0]] + rest[0]] + rest[1..];
        assert parts[1..] == rest[1..];
        assert |rest| > 1 ==> Implode(sep, rest) == rest[0] + [sep] + Implode(sep, rest[1..]);
        parts
  }

  /** `explode($sep, $s, 2)`: splits at the first separator only. */
  function ExplodeLimit2(sep: char, s: string): seq<string>
  {
    var i := IndexOf(sep, s);
    if i == |s| then [s] else [s[..i], s[i + 1..]]
  }

  /**
   * Exploding with a limit of two gives one piece when there is no
   * separator and two otherwise; the first piece holds no separator, and
   * joining the pieces with it gives back `s`.
   */
  lemma ExplodeLimit2Shape(sep: char, s: string)
    ensures var parts := ExplodeLimit2(sep, s);
      1 <= |parts| <= 2 && (|parts| == 1 <==> sep !in s) && sep !in parts[0] &&
      Implode(sep, parts) == s
  {
    IndexOfShape(sep, s);
    var i := IndexOf(sep, s);
    if i < |s| {
      var parts := [s[..i], s[i + 1..]];
      assert parts[1..] == [s[i + 1..]];
      assert s == s[..i] + [sep] + s[i + 1..];
    }
  }

  /** Every `from` in `s` becomes `to`; nothing else changes. */
  function ReplaceChar(s: string, from: char, to: char): (r: string)
    ensures |r| == |s|
    ensures forall i :: 0 <= i < |s| ==> r[i] == if s[i] == from then to else s[i]
  {
    if s == [] then [] else [if s[0] == from then to else s[0]] + ReplaceChar(s[1..], from, to)
  }

  /**
   * `str_replace($search, $to, $s)` with an array of one-character search
   * strings: PHP replaces each search string in turn, on the result of the
   * previous replacement, which comes to replacing every character that
   * occurs in `search` by `to`.
   */
  function StrReplace(search: seq<char>, to: char, s: string): (r: string)
    ensures |r| == |s|
    ensures forall i :: 0 <= i < |s| ==> r[i] == if s[i] in search then to else s[i]
  {
    if search == [] then s
    else
      assert forall c :: c in search <==> c == search[0] || c in search[1..];
      StrReplace(search[1..], to, ReplaceChar(s, search[0], to))
  }

  /** A string without the separator explodes to itself alone. */
  lemma {:induction false} ExplodeWithoutSeparator(sep: char, a: string)
    requires sep !in a
    ensures Explode(sep, a) == [a]
  {
    if a != [] {
      ExplodeWithoutSeparator(sep, a[1..]);
      assert [a[0]] + a[1..] == a;
    }
  }

  /** A separator-free first piece comes off whole. */
  lemma {:induction false} ExplodeFirstPiece(sep: char, a: string, b: string)
    requires sep !in a
    ensures Explode(sep, a + [sep] + b) == [a] + Explode(sep, b)
  {
    var s := a + [sep] + b;
    if a == [] {
      assert s[1..] == b;
    } else {
      assert s[1..] == a[1..] + [sep] + b;
      ExplodeFirstPiece(sep, a[1..], b);
      assert [a[0]] + a[1..] == a;
    }
  }

  /**
   * The other half of the round trip: exploding joined pieces that do not
   * hold the separator gives back the pieces.
   */
  lemma {:induction false} ExplodeImplode(sep: char, parts: seq<string>)
    requires |parts| >= 1
    requires forall i :: 0 <= i < |parts| ==> sep !in parts[i]
    ensures Explode(sep, Implode(sep, parts)) == parts
  {
    if |parts| == 1 {
      ExplodeWithoutSeparator(sep, parts[0]);
    } else {
      ExplodeImplode(sep, parts[1..]);
      ExplodeFirstPiece(sep, parts[0], Implode(sep, parts[1..]));
      assert [parts[0]] + parts[1..] == parts;
    }
  }

  /**
   * Splitting at the first separator agrees with a full `explode`: the first
   * piece is the same, and the remainder is the other pieces joined again.
   */
  lemma {:induction false} ExplodeLimit2Agrees(sep: char, s: string)
    ensures ExplodeLimit2(sep, s)[0] == Explode(sep, s)[0]
    ensures |ExplodeLimit2(sep, s)| == 2 ==>
      ExplodeLimit2(sep, s)[1] == Implode(sep, Explode(sep, s)[1..])
  {
    IndexOfShape(sep, s);
    var i := IndexOf(sep, s);
    if i == |s| {
      ExplodeWithoutSeparator(sep, s);
    } else {
      assert s == s[..i] + [sep] + s[i + 1..];
      ExplodeFirstPiece(sep, s[..i], s[i + 1..]);
      assert Explode(sep, s)[1..] == Explode(sep, s[i + 1..]);
    }
  }

  /** Every character of a piece occurs in the joined string. */
  lemma {:induction false} PieceInImplode(sep: char, parts: seq<string>, i: nat, k: nat)
    requires i < |parts| && k < |parts[i]|
    ensures parts[i][k] in Implode(sep, parts)
  {
    if |parts| > 1 {
      if i == 0 {
        assert Implode(sep, parts)[k] == parts[0][k];
      } else {
        PieceInImplode(sep, parts[1..], i - 1, k);
        var rest := Implode(sep, parts[1..]);
        var j :| 0 <= j < |rest| && rest[j] == parts[i][k];
        assert Implode(sep, parts)[|parts[0]| + 1 + j] == rest[j];
      }
    }
  }
}
