/**
 * The JavaScript string operations the adapter relies on: searching for a
 * substring, `split` with a string separator, `join`, and the decimal
 * rendering of integers that template literals perform.
 */
module Strings {
  import opened Wrappers

  /** `pat` occurs in `s` starting at index `i`. */
  predicate OccursAt(s: string, pat: string, i: nat)
  {
    i + |pat| <= |s| && s[i..i + |pat|] == pat
  }

  predicate Contains(s: string, pat: string)
  {
    exists i: nat | i <= |s| :: OccursAt(s, pat, i)
  }

  /** The first occurrence of `pat` in `s` at or after `from`. */
  function FindFrom(s: string, pat: string, from: nat): (r: Option<nat>)
    requires 0 < |pat|
    decreases |s| - from
    ensures r.Some? ==> from <= r.value && OccursAt(s, pat, r.value)
    ensures forall j: nat :: from <= j && (r.None? || j < r.value) ==> !OccursAt(s, pat, j)
  {
    if |s| < from + |pat| then None
    else if s[from..from + |pat|] == pat then Some(from)
    else FindFrom(s, pat, from + 1)
  }

  /** `s.indexOf(pat)`, with `None` for -1. */
  function FindFirst(s: string, pat: string): (r: Option<nat>)
    requires 0 < |pat|
    ensures r.None? <==> !Contains(s, pat)
    ensures r.Some? ==> OccursAt(s, pat, r.value) && forall j: nat :: j < r.value ==> !OccursAt(s, pat, j)
  {
    FindFrom(s, pat, 0)
  }

  /** The first occurrence is the one with no occurrence before it. */
  lemma FindFirstIs(s: string, pat: string, n: nat)
    requires 0 < |pat| && OccursAt(s, pat, n)
    requires forall j: nat :: j < n ==> !OccursAt(s, pat, j)
    ensures FindFirst(s, pat) == Some(n)
  {
  }

  /** `parts.join(sep)`. */
  function Join(parts: seq<string>, sep: string): string
  {
    if |parts| == 0 then ""
    else if |parts| == 1 then parts[0]
    else parts[0] + sep + Join(parts[1..], sep)
  }

  /**
   * `s.split(sep)` for a non-empty separator: the occurrences of `sep` are
   * taken from left to right without overlapping, and the pieces between them
   * are returned, so there is always at least one piece.
   */
  function Split(s: string, sep: string): (parts: seq<string>)
    requires 0 < |sep|
    decreases |s|
    ensures 0 < |parts|
    ensures Join(parts, sep) == s
    ensures !Contains(parts[|parts| - 1], sep)
  {
    match FindFirst(s, sep)
    case None => [s]
    case Some(i) =>
      var rest := Split(s[i + |sep|..], sep);
      [s[..i]] + rest
  }

  /** `a.pop()` on the (never empty) result of `split`. */
  function Last(parts: seq<string>): string
    requires 0 < |parts|
  {
    parts[|parts| - 1]
  }

  lemma OccursInPrefix(s: string, t: string, pat: string, j: nat)
    requires OccursAt(s, pat, j)
    ensures OccursAt(s + t, pat, j)
  {
    assert (s + t)[j..j + |pat|] == s[j..j + |pat|];
  }

  lemma OccursShifted(s: string, off: nat, pat: string, j: nat)
    requires off <= |s| && OccursAt(s[off..], pat, j)
    ensures OccursAt(s, pat, off + j)
  {
    assert s[off..][j..j + |pat|] == s[off + j..off + j + |pat|];
  }

  /**
   * Splitting a joined list gives the list back when no part, followed by all
   * but the last character of the separator, contains the separator.
   */
  lemma {:induction false} SplitJoin(parts: seq<string>, sep: string)
    requires 0 < |sep| && 0 < |parts|
    requires forall k :: 0 <= k < |parts| ==> !Contains(parts[k] + sep[..|sep| - 1], sep)
    ensures Split(Join(parts, sep), sep) == parts
  {
    var p := parts[0];
    if |parts| == 1 {
      if Contains(p, sep) {
        var j: nat :| OccursAt(p, sep, j);
        OccursInPrefix(p, sep[..|sep| - 1], sep, j);
        assert false;
      }
    } else {
      var rest := parts[1..];
      var s := Join(parts, sep);
      assert s == p + sep + Join(rest, sep);
      assert s[|p|..|p| + |sep|] == sep;
      forall j: nat | j < |p|
        ensures !OccursAt(s, sep, j)
      {
        if OccursAt(s, sep, j) {
          var q := p + sep[..|sep| - 1];
          assert s[j..j + |sep|] == q[j..j + |sep|];
          assert OccursAt(q, sep, j);
          assert false;
        }
      }
      FindFirstIs(s, sep, |p|);
      assert s[..|p|] == p;
      assert s[|p| + |sep|..] == Join(rest, sep);
      SplitJoin(rest, sep);
    }
  }

  /** `p` is a suffix of `s` and a separator ends right before it. */
  predicate SepBefore(s: string, sep: string, p: string)
  {
    |p| + |sep| <= |s| && OccursAt(s, sep, |s| - |p| - |sep|) && s[|s| - |p|..] == p
  }

  /**
   * What the last piece `p` of splitting `s` at `sep` is: the whole of `s`
   * when `s` holds no separator, and otherwise the suffix of `s` that a
   * separator ends right before.
   */
  predicate IsLastPiece(s: string, sep: string, p: string)
    requires 0 < |sep|
  {
    if FindFirst(s, sep).None? then p == s else SepBefore(s, sep, p)
  }

  lemma {:induction false} SplitLast(s: string, sep: string)
    requires 0 < |sep|
    ensures IsLastPiece(s, sep, Last(Split(s, sep)))
    decreases |s|, 1
  {
    if FindFirst(s, sep).Some? {
      SplitLastAfterSeparator(s, sep);
    }
  }

  lemma {:induction false} SplitLastAfterSeparator(s: string, sep: string)
    requires 0 < |sep| && FindFirst(s, sep).Some?
    ensures SepBefore(s, sep, Last(Split(s, sep)))
    decreases |s|, 0
  {
    var i := FindFirst(s, sep).value;
    SplitLast(s[i + |sep|..], sep);
    SepBeforeShift(s, sep, i, Last(Split(s[i + |sep|..], sep)));
    SplitStep(s, sep);
  }

  /** A last piece of the rest after a separator is a last piece of the whole. */
  lemma SepBeforeShift(s: string, sep: string, i: nat, p: string)
    requires OccursAt(s, sep, i)
    requires p == s[i + |sep|..] || SepBefore(s[i + |sep|..], sep, p)
    ensures SepBefore(s, sep, p)
  {
    var off := i + |sep|;
    var t := s[off..];
    if p == t {
      assert |s| - |p| - |sep| == i;
    } else {
      assert |t| == |s| - off;
      OccursShifted(s, off, sep, |t| - |p| - |sep|);
      SuffixOfDrop(s, off, p);
    }
  }

  /** Split continues after the first separator with the rest of the string. */
  lemma SplitStep(s: string, sep: string)
    requires 0 < |sep| && FindFirst(s, sep).Some?
    ensures Last(Split(s, sep)) == Last(Split(s[FindFirst(s, sep).value + |sep|..], sep))
  {
  }

  lemma SuffixOfDrop(s: string, off: nat, p: string)
    requires off <= |s| && |p| <= |s| - off && s[off..][|s| - off - |p|..] == p
    ensures s[|s| - |p|..] == p
  {
    assert s[off..][|s| - off - |p|..] == s[|s| - |p|..];
  }

  /** A one-character pattern occurs exactly where that character stands. */
  lemma ContainsChar(s: string, c: char)
    ensures Contains(s, [c]) <==> c in s
  {
    if c in s {
      var i :| 0 <= i < |s| && s[i] == c;
      assert OccursAt(s, [c], i);
    }
    if Contains(s, [c]) {
      var i: nat :| i <= |s| && OccursAt(s, [c], i);
      assert s[i] == s[i..i + 1][0] == c;
    }
  }

  /** `indexOf` of a character is the first position holding it. */
  lemma FindFirstChar(s: string, c: char, n: nat)
    requires n < |s| && s[n] == c && c !in s[..n]
    ensures FindFirst(s, [c]) == Some(n)
  {
    assert OccursAt(s, [c], n);
    forall j: nat | j < n
      ensures !OccursAt(s, [c], j)
    {
      assert s[..n][j] == s[j];
    }
    FindFirstIs(s, [c], n);
  }

  /** Joining with ", " can be undone whenever no part contains ", ". */
  lemma SplitJoinComma(parts: seq<string>)
    requires 0 < |parts|
    requires forall k :: 0 <= k < |parts| ==> !Contains(parts[k], ", ")
    ensures Split(Join(parts, ", "), ", ") == parts
  {
    assert ", "[..1] == ",";
    forall k | 0 <= k < |parts|
      ensures !Contains(parts[k] + ", "[..1], ", ")
    {
      TrailingComma(parts[k]);
    }
    SplitJoin(parts, ", ");
  }

  /** A trailing comma cannot start a ", " that is not already there. */
  lemma TrailingComma(p: string)
    ensures Contains(p + ",", ", ") ==> Contains(p, ", ")
  {
    var q := p + ",";
    if Contains(q, ", ") {
      var j: nat :| j <= |q| && OccursAt(q, ", ", j);
      assert q[j + 1] == ' ';
      assert q[j..j + 2] == p[j..j + 2];
      assert OccursAt(p, ", ", j);
    }
  }

  // ---------------------------------------------------------------------
  // Decimal rendering of integers, as `${n}` does for an integral number.

  predicate IsDigit(c: char)
  {
    '0' <= c <= '9'
  }

  predicate AllDigits(s: string)
  {
    forall k :: 0 <= k < |s| ==> IsDigit(s[k])
  }

  function DigitChar(d: nat): (c: char)
    requires d < 10
    ensures IsDigit(c)
  {
    (('0' as int) + d) as char
  }

  function DigitValue(c: char): (d: nat)
    requires IsDigit(c)
    ensures d < 10
  {
    (c as int) - ('0' as int)
  }

  /** The decimal text of a counter, as a template literal prints it: no leading zero. */
  function NatToString(n: nat): (s: string)
    ensures 0 < |s| && AllDigits(s)
    ensures |s| == 1 || s[0] != '0'
    decreases n
  {
    if n < 10 then [DigitChar(n)] else NatToString(n / 10) + [DigitChar(n % 10)]
  }

  /** The decimal text of an integer: a `-` only for negatives, then canonical digits, never `-0`. */
  function IntToString(i: int): (s: string)
    ensures 0 < |s|
    ensures i < 0 <==> s[0] == '-'
    ensures var d := if i < 0 then s[1..] else s;
      0 < |d| && AllDigits(d) && (|d| == 1 || d[0] != '0') && (i < 0 ==> d != "0")
  {
    if i < 0 then "-" + NatToString(-i) else NatToString(i)
  }

  /** Reads a non-empty run of decimal digits back as a number. */
  function ParseNat(s: string): nat
    requires 0 < |s| && AllDigits(s)
  {
    if |s| == 1 then DigitValue(s[0])
    else ParseNat(s[..|s| - 1]) * 10 + DigitValue(s[|s| - 1])
  }

  /** Reads an optionally negative decimal integer; `None` when `s` is not one. */
  function ParseInt(s: string): Option<int>
  {
    if 0 < |s| && s[0] == '-' then
      if 1 < |s| && AllDigits(s[1..]) then Some(-(ParseNat(s[1..]) as int)) else None
    else if 0 < |s| && AllDigits(s) then Some(ParseNat(s))
    else None
  }

  lemma {:induction false} ParseNatToString(n: nat)
    ensures ParseNat(NatToString(n)) == n
    decreases n
  {
    if 10 <= n {
      var a := NatToString(n / 10);
      var s := NatToString(n);
      assert s == a + [DigitChar(n % 10)];
      assert s[..|s| - 1] == a;
      ParseNatToString(n / 10);
    }
  }

  /** The rendering of an integer reads back as the same integer. */
  lemma ParseIntToString(i: int)
    ensures ParseInt(IntToString(i)) == Some(i)
  {
    var s := IntToString(i);
    if i < 0 {
      assert s[1..] == NatToString(-i);
      ParseNatToString(-i);
    } else {
      ParseNatToString(i);
    }
  }

  /** Rendered integers hold only digits and a leading minus sign. */
  lemma IntToStringChars(i: int, c: char)
    requires c != '-' && !IsDigit(c)
    ensures c !in IntToString(i)
  {
    var s := IntToString(i);
    if i < 0 {
      assert forall k :: 1 <= k < |s| ==> s[k] == NatToString(-i)[k - 1];
    }
  }
}
