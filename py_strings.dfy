/**
 * The few pieces of Python's `str` and `re` behaviour that the line edits rely
 * on, stated over Dafny strings (sequences of Unicode scalar values):
 * `s.strip()`, `s.replace(p, "")`, `re.split("[_]", s)`, `s.isdigit()`,
 * `int(s)` and `str(i)`.
 */
module PyStrings {

  // ---------------------------------------------------------------------------
  // str.strip()
  // ---------------------------------------------------------------------------

  /** `c.isspace()`: the code points that `str.strip()` removes. */
  predicate IsSpace(c: char)
  {
    var n := c as int;
    (9 <= n <= 13) || (28 <= n <= 32) || n == 0x85 || n == 0xA0 || n == 0x1680
    || (0x2000 <= n <= 0x200A) || n == 0x2028 || n == 0x2029 || n == 0x202F
    || n == 0x205F || n == 0x3000
  }

  function StripLeft(s: string): string
  {
    if s != [] && IsSpace(s[0]) then StripLeft(s[1..]) else s
  }

  function StripRight(s: string): string
  {
    if s != [] && IsSpace(s[|s| - 1]) then StripRight(s[..|s| - 1]) else s
  }

  /** `s.strip()` with no argument. */
  function Strip(s: string): string
  {
    StripRight(StripLeft(s))
  }

  lemma {:induction false} StripLeftDrops(s: string) returns (i: nat)
    ensures i <= |s| && StripLeft(s) == s[i..]
    ensures forall k :: 0 <= k < i ==> IsSpace(s[k])
    ensures i < |s| ==> !IsSpace(s[i])
  {
    if s != [] && IsSpace(s[0]) {
      var i' := StripLeftDrops(s[1..]);
      i := i' + 1;
      assert s[1..][i'..] == s[i..];
    } else {
      i := 0;
    }
  }

  lemma {:induction false} StripRightDrops(s: string) returns (j: nat)
    ensures j <= |s| && StripRight(s) == s[..j]
    ensures forall k :: j <= k < |s| ==> IsSpace(s[k])
    ensures 0 < j ==> !IsSpace(s[j - 1])
  {
    if s != [] && IsSpace(s[|s| - 1]) {
      j := StripRightDrops(s[..|s| - 1]);
      assert s[..|s| - 1][..j] == s[..j];
    } else {
      j := |s|;
    }
  }

  /**
   * `s.strip()` is the slice `s[i..j]` left after dropping a run of white space
   * at each end; when it is not empty it neither starts nor ends with white
   * space.
   */
  lemma StripIsTrim(s: string) returns (i: nat, j: nat)
    ensures i <= j <= |s| && Strip(s) == s[i..j]
    ensures forall k :: 0 <= k < i ==> IsSpace(s[k])
    ensures forall k :: j <= k < |s| ==> IsSpace(s[k])
    ensures i < j ==> !IsSpace(s[i]) && !IsSpace(s[j - 1])
  {
    i := StripLeftDrops(s);
    var t := s[i..];
    var j' := StripRightDrops(t);
    j := i + j';
    assert t[..j'] == s[i..j];
    forall k | j <= k < |s| ensures IsSpace(s[k]) {
      assert s[k] == t[k - i];
    }
    if i < j {
      assert s[j - 1] == t[j' - 1];
    }
  }

  /** A string that neither starts nor ends with white space is its own strip. */
  lemma StripTrimmed(s: string)
    requires s == [] || (!IsSpace(s[0]) && !IsSpace(s[|s| - 1]))
    ensures Strip(s) == s
  {
  }

  /** Stripping twice is stripping once. */
  lemma StripIdempotent(s: string)
    ensures Strip(Strip(s)) == Strip(s)
  {
    var i, j := StripIsTrim(s);
    StripTrimmed(s[i..j]);
  }

  /** `s.strip()` is empty exactly when `s` is all white space. */
  lemma StripEmptyIff(s: string)
    ensures Strip(s) == [] <==> forall k :: 0 <= k < |s| ==> IsSpace(s[k])
  {
    var i, j := StripIsTrim(s);
    if Strip(s) == [] {
      forall k | 0 <= k < |s| ensures IsSpace(s[k]) {
        if k < i { } else { assert j <= k; }
      }
    }
  }

  // ---------------------------------------------------------------------------
  // str.replace(p, "") and str.count(p)
  // ---------------------------------------------------------------------------

  /** `p` occurs in `s` starting at index `i`. */
  predicate MatchAt(s: string, p: string, i: nat)
  {
    i + |p| <= |s| && s[i..i + |p|] == p
  }

  /** `p in s`: `p` occurs somewhere in `s`. */
  ghost predicate Contains(s: string, p: string)
  {
    exists i: nat :: MatchAt(s, p, i)
  }

  /**
   * `s.replace(p, "")`: scanning left to right, drop every non-overlapping
   * occurrence of `p`. An empty `p` leaves `s` as it is.
   */
  function RemoveAll(s: string, p: string): string
    decreases |s|
  {
    if p == [] || |s| < |p| then s
    else if s[..|p|] == p then RemoveAll(s[|p|..], p)
    else [s[0]] + RemoveAll(s[1..], p)
  }

  /** `s.count(p)` for a non-empty `p`: the occurrences `RemoveAll` drops. */
  function Occurrences(s: string, p: string): nat
    requires p != []
    decreases |s|
  {
    if |s| < |p| then 0
    else if s[..|p|] == p then 1 + Occurrences(s[|p|..], p)
    else Occurrences(s[1..], p)
  }

  /** Each dropped occurrence shortens the string by exactly `|p|`. */
  lemma {:induction false} RemoveAllLength(s: string, p: string)
    requires p != []
    ensures |RemoveAll(s, p)| + |p| * Occurrences(s, p) == |s|
    decreases |s|
  {
    if |s| < |p| {
    } else if s[..|p|] == p {
      RemoveAllLength(s[|p|..], p);
      RemoveAllLengthMatch(s, p);
    } else {
      RemoveAllLength(s[1..], p);
      RemoveAllLengthSkip(s, p);
    }
  }

  /** The step of RemoveAllLength where `s` starts with `p`. */
  lemma RemoveAllLengthMatch(s: string, p: string)
    requires p != [] && |s| >= |p| && s[..|p|] == p
    requires |RemoveAll(s[|p|..], p)| + |p| * Occurrences(s[|p|..], p) == |s[|p|..]|
    ensures |RemoveAll(s, p)| + |p| * Occurrences(s, p) == |s|
  {
    var t := s[|p|..];
    var k := Occurrences(t, p);
    assert RemoveAll(s, p) == RemoveAll(t, p);
    assert Occurrences(s, p) == k + 1;
    MulSucc(|p|, k);
  }

  lemma MulSucc(a: nat, k: nat)
    ensures a * (k + 1) == a * k + a
  {
  }

  /** The step of RemoveAllLength where `s` does not start with `p`. */
  lemma RemoveAllLengthSkip(s: string, p: string)
    requires p != [] && |s| >= |p| && s[..|p|] != p
    requires |RemoveAll(s[1..], p)| + |p| * Occurrences(s[1..], p) == |s[1..]|
    ensures |RemoveAll(s, p)| + |p| * Occurrences(s, p) == |s|
  {
  }

  /** Removing a non-empty string that occurs makes the text strictly shorter. */
  lemma RemoveAllShrinks(s: string, p: string)
    requires p != [] && Contains(s, p)
    ensures |RemoveAll(s, p)| + |p| <= |s|
  {
    ContainsOccurs(s, p);
    RemoveAllLength(s, p);
    var k := Occurrences(s, p) - 1;
    MulSucc(|p|, k);
  }

  lemma {:induction false} ContainsOccurs(s: string, p: string)
    requires p != [] && Contains(s, p)
    ensures Occurrences(s, p) >= 1
    decreases |s|
  {
    var i: nat :| MatchAt(s, p, i);
    if s[..|p|] != p {
      assert i > 0;
      assert s[1..][i - 1..i - 1 + |p|] == s[i..i + |p|];
      assert MatchAt(s[1..], p, i - 1);
      ContainsOccurs(s[1..], p);
    }
  }

  lemma {:induction false} AbsentUnchanged(s: string, p: string)
    requires p != [] && !Contains(s, p)
    ensures RemoveAll(s, p) == s
    decreases |s|
  {
    if |s| >= |p| {
      assert s[0..0 + |p|] == s[..|p|];
      assert !MatchAt(s, p, 0);
      if Contains(s[1..], p) {
        var i: nat :| MatchAt(s[1..], p, i);
        assert s[i + 1..i + 1 + |p|] == s[1..][i..i + |p|];
        assert MatchAt(s, p, i + 1);
        assert false;
      }
      AbsentUnchanged(s[1..], p);
      assert s == [s[0]] + s[1..];
    }
  }

  /** `s.replace(p, "")` returns `s` unchanged exactly when `p` does not occur in `s`. */
  lemma RemoveAllUnchangedIff(s: string, p: string)
    requires p != []
    ensures RemoveAll(s, p) == s <==> !Contains(s, p)
  {
    if Contains(s, p) {
      ContainsOccurs(s, p);
      RemoveAllLength(s, p);
    } else {
      AbsentUnchanged(s, p);
    }
  }

  /** Removing a single character leaves none of it behind. */
  lemma {:induction false} RemoveAllCharGone(s: string, c: char)
    ensures c !in RemoveAll(s, [c])
    decreases |s|
  {
    if |s| >= 1 {
      RemoveAllCharGone(s[1..], c);
      if s[..1] != [c] {
        assert s[0] != c;
      }
    }
  }

  /** Removing a whole non-empty string from itself leaves nothing. */
  lemma RemoveAllSelf(p: string)
    requires p != []
    ensures RemoveAll(p, p) == []
  {
    assert p[..|p|] == p;
  }

  // ---------------------------------------------------------------------------
  // re.split on a one-character class
  // ---------------------------------------------------------------------------

  /**
   * `re.split("[c]", s)`: the pieces between the occurrences of `c`, empty
   * pieces included; never an empty list.
   */
  function SplitOn(s: string, c: char): (parts: seq<string>)
    ensures |parts| >= 1
  {
    if s == [] then [[]]
    else
      var rest := SplitOn(s[1..], c);
      if s[0] == c then [[]] + rest else [[s[0]] + rest[0]] + rest[1..]
  }

  /** `c.join(parts)`. */
  function Join(parts: seq<string>, c: char): string
    requires |parts| >= 1
  {
    if |parts| == 1 then parts[0] else parts[0] + [c] + Join(parts[1..], c)
  }

  /** Joining the pieces with the separator gives back the string. */
  lemma {:induction false} JoinSplit(s: string, c: char)
    ensures Join(SplitOn(s, c), c) == s
  {
    if s != [] {
      var rest := SplitOn(s[1..], c);
      JoinSplit(s[1..], c);
      if s[0] == c {
        assert Join([[]] + rest, c) == [] + [c] + Join(rest, c);
      } else {
        var parts := SplitOn(s, c);
        assert parts[1..] == rest[1..];
        if |rest| > 1 {
          assert Join(rest, c) == rest[0] + [c] + Join(rest[1..], c);
        }
      }
    }
  }

  /** No piece contains the separator. */
  lemma {:induction false} SplitPiecesFree(s: string, c: char)
    ensures forall k :: 0 <= k < |SplitOn(s, c)| ==> c !in SplitOn(s, c)[k]
  {
    if s != [] {
      SplitPiecesFree(s[1..], c);
    }
  }

  /** A string splits into itself alone exactly when it has no separator. */
  lemma {:induction false} SplitSingleton(s: string, c: char)
    ensures SplitOn(s, c) == [s] <==> c !in s
  {
    if c !in s {
      if s != [] {
        SplitSingleton(s[1..], c);
        assert [s[0]] + s[1..] == s;
      }
    } else {
      SplitPiecesFree(s, c);
      assert c !in SplitOn(s, c)[0];
    }
  }

  /** A separator-free string followed by one separator splits into it and "". */
  lemma {:induction false} SplitTrailing(s: string, c: char)
    requires c !in s
    ensures SplitOn(s + [c], c) == [s, []]
  {
    if s != [] {
      assert (s + [c])[1..] == s[1..] + [c];
      assert (s + [c])[0] == s[0] != c;
      SplitTrailing(s[1..], c);
      assert [s[0]] + s[1..] == s;
    } else {
      assert [c][1..] == [];
    }
  }

  // ---------------------------------------------------------------------------
  // str.isdigit(), int() and str() on decimal numerals
  // ---------------------------------------------------------------------------

  predicate IsDigit(c: char)
  {
    '0' <= c <= '9'
  }

  /** `s.isdigit()` for ASCII digits: non-empty and digits only. */
  predicate IsDigits(s: string)
  {
    s != [] && forall k :: 0 <= k < |s| ==> IsDigit(s[k])
  }

  /** A numeral without leading zeros, as `str` writes a natural number. */
  predicate IsCanonical(s: string)
  {
    IsDigits(s) && (s[0] != '0' || |s| == 1)
  }

  function DigitValue(c: char): nat
    requires IsDigit(c)
  {
    c as int - '0' as int
  }

  /** `int(s)` for a string of digits; leading zeros are allowed. */
  function DigitsValue(s: string): nat
    requires forall k :: 0 <= k < |s| ==> IsDigit(s[k])
  {
    if s == [] then 0 else DigitsValue(s[..|s| - 1]) * 10 + DigitValue(s[|s| - 1])
  }

  function DigitChar(d: nat): char
    requires d < 10
  {
    ('0' as int + d) as char
  }

  /** `str(n)` for a natural number. */
  function NatToDecimal(n: nat): (r: string)
    ensures IsDigits(r)
    ensures r[0] == '0' <==> n == 0
  {
    if n < 10 then [DigitChar(n)] else NatToDecimal(n / 10) + [DigitChar(n % 10)]
  }

  /** `str(i)` for any integer. */
  function IntToDecimal(i: int): string
  {
    if i < 0 then "-" + NatToDecimal(-i) else NatToDecimal(i)
  }

  /** The strings `str` produces for integers: an optional minus, then digits. */
  predicate IsIntLiteral(s: string)
  {
    IsDigits(s) || (|s| >= 2 && s[0] == '-' && IsDigits(s[1..]))
  }

  /** `int(s)` for an optionally signed decimal numeral. */
  function ParseInt(s: string): int
    requires IsIntLiteral(s)
  {
    if s[0] == '-' then -(DigitsValue(s[1..]) as int) else DigitsValue(s)
  }

  /** `int(str(n)) == n` for natural numbers. */
  lemma {:induction false} DecimalRoundTrip(n: nat)
    ensures DigitsValue(NatToDecimal(n)) == n
  {
    var r := NatToDecimal(n);
    if n < 10 {
      assert r[..0] == [];
    } else {
      DecimalRoundTrip(n / 10);
      assert r[..|r| - 1] == NatToDecimal(n / 10);
    }
  }

  /** `int(str(i)) == i` for every integer. */
  lemma IntRoundTrip(i: int)
    ensures IsIntLiteral(IntToDecimal(i)) && ParseInt(IntToDecimal(i)) == i
  {
    var s := IntToDecimal(i);
    if i < 0 {
      var r := NatToDecimal(-i);
      assert s == "-" + r && s[0] == '-' && s[1..] == r;
      DecimalRoundTrip(-i);
    } else {
      assert IsDigit(s[0]);
      DecimalRoundTrip(i);
    }
  }

  lemma {:induction false} LeadingDigitPositive(s: string)
    requires IsDigits(s) && s[0] != '0'
    ensures DigitsValue(s) >= 1
  {
    if |s| > 1 {
      LeadingDigitPositive(s[..|s| - 1]);
    }
  }

  /** `str(int(s)) == s` exactly when `s` has no leading zeros. */
  lemma {:induction false} CanonicalRoundTrip(s: string)
    requires IsDigits(s)
    ensures NatToDecimal(DigitsValue(s)) == s <==> IsCanonical(s)
  {
    if IsCanonical(s) {
      var n := DigitsValue(s);
      if |s| == 1 {
        assert s[..|s| - 1] == [];
        assert n == DigitsValue(s[..|s| - 1]) * 10 + DigitValue(s[0]) == DigitValue(s[0]);
      } else {
        var s' := s[..|s| - 1];
        LeadingDigitPositive(s');
        CanonicalRoundTrip(s');
        assert n / 10 == DigitsValue(s') && n % 10 == DigitValue(s[|s| - 1]);
        assert s == s' + [s[|s| - 1]];
      }
    }
  }
}
