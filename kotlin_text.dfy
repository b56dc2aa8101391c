/**
 * The pieces of the Kotlin standard library that the puzzle harness
 * relies on for text: `String.toIntOrNull()` / `String.toInt()` in radix 10,
 * `String.split(delimiter)` with a literal delimiter, and decimal rendering
 * of integers (used to state round trips).
 */
module KotlinText {
  import opened Wrappers

  /** Range of Kotlin's 32-bit `Int`. */
  const INT_MIN: int := -0x8000_0000
  const INT_MAX: int := 0x7fff_ffff

  predicate IsDigit(c: char) {
    '0' <= c <= '9'
  }

  predicate AllDigits(s: string) {
    forall i :: 0 <= i < |s| ==> IsDigit(s[i])
  }

  function DigitValue(c: char): nat
    requires IsDigit(c)
  {
    c as int - '0' as int
  }

  function DigitChar(d: nat): char
    requires d < 10
  {
    ('0' as int + d) as char
  }

  /** The value of a string of decimal digits, most significant digit first. */
  function DigitsValue(s: string): nat
    requires AllDigits(s)
  {
    if s == [] then 0 else DigitsValue(s[..|s| - 1]) * 10 + DigitValue(s[|s| - 1])
  }

  /**
   * `String.toIntOrNull()`: an optional leading '-' or '+', then at least one
   * decimal digit and nothing else, with a value that fits in an `Int`.
   */
  function ParseInt32(s: string): (r: Option<int>)
    ensures r.Some? ==> INT_MIN <= r.value <= INT_MAX
    ensures r.Some? ==> |s| > 0 && (IsDigit(s[0]) || s[0] == '-' || s[0] == '+')
    ensures r.Some? && r.value < 0 ==> s[0] == '-'
  {
    if |s| == 0 then None
    else if s[0] == '-' || s[0] == '+' then
      if |s| == 1 || !AllDigits(s[1..]) then None
      else
        var v: int := if s[0] == '-' then -(DigitsValue(s[1..]) as int) else DigitsValue(s[1..]);
        if INT_MIN <= v <= INT_MAX then Some(v) else None
    else if AllDigits(s) && DigitsValue(s) <= INT_MAX then Some(DigitsValue(s))
    else None
  }

  /** Canonical decimal rendering of a natural number. */
  function ShowNat(n: nat): (s: string)
    ensures |s| > 0 && AllDigits(s)
  {
    if n < 10 then [DigitChar(n)] else ShowNat(n / 10) + [DigitChar(n % 10)]
  }

  /** Canonical decimal rendering of an integer (`Int.toString()`). */
  function ShowInt(n: int): string {
    if n < 0 then "-" + ShowNat(-n) else ShowNat(n)
  }

  lemma {:induction false} ShowNatValue(n: nat)
    ensures DigitsValue(ShowNat(n)) == n
  {
    if n >= 10 {
      var s := ShowNat(n);
      assert s[..|s| - 1] == ShowNat(n / 10);
      ShowNatValue(n / 10);
    }
  }

  /** `toIntOrNull` reads back every `Int` from its decimal rendering. */
  lemma ParseShowInt(n: int)
    requires INT_MIN <= n <= INT_MAX
    ensures ParseInt32(ShowInt(n)) == Some(n)
  {
    if n < 0 {
      var s := ShowInt(n);
      assert s[1..] == ShowNat(-n);
      ShowNatValue(-n);
    } else {
      ShowNatValue(n);
    }
  }

  /** `Int.toString()` writes digits and at most a leading minus sign. */
  lemma ShowIntChars(n: int)
    ensures |ShowInt(n)| > 0
    ensures IsDigit(ShowInt(n)[0]) || ShowInt(n)[0] == '-'
    ensures forall i :: 0 <= i < |ShowInt(n)| ==> IsDigit(ShowInt(n)[i]) || ShowInt(n)[i] == '-'
  {
    if n < 0 {
      assert forall i :: 1 <= i < |ShowInt(n)| ==> ShowInt(n)[i] == ShowNat(-n)[i - 1];
    }
  }

  /** A string with a character that is neither a digit nor a leading sign is not an `Int`. */
  lemma ParseRejectsNonDigit(s: string, i: nat)
    requires i < |s| && !IsDigit(s[i]) && (i > 0 || (s[0] != '-' && s[0] != '+'))
    ensures ParseInt32(s) == None
  {
    if s[0] == '-' || s[0] == '+' {
      assert !IsDigit(s[1..][i - 1]);
    }
  }

  // ---------------------------------------------------------------------------
  // String.split with one literal delimiter

  predicate OccursAt(s: string, d: string, j: nat) {
    j + |d| <= |s| && s[j..j + |d|] == d
  }

  /** The first index at or after `from` where `d` occurs in `s` (`indexOf`). */
  function IndexOf(s: string, d: string, from: nat): (r: Option<nat>)
    requires from <= |s|
    decreases |s| - from
    ensures r.Some? ==> from <= r.value && OccursAt(s, d, r.value)
    ensures r.Some? ==> forall j :: from <= j < r.value ==> !OccursAt(s, d, j)
    ensures r.None? ==> forall j :: from <= j <= |s| ==> !OccursAt(s, d, j)
  {
    if OccursAt(s, d, from) then Some(from)
    else if from == |s| then None
    else IndexOf(s, d, from + 1)
  }

  /**
   * `s.split(d)` for a non-empty literal delimiter: the pieces between the
   * successive leftmost non-overlapping occurrences of `d`, empty pieces
   * included (Kotlin drops none).
   */
  function Split(s: string, d: string): seq<string>
    requires |d| > 0
    decreases |s|
  {
    match IndexOf(s, d, 0)
    case None => [s]
    case Some(j) => [s[..j]] + Split(s[j + |d|..], d)
  }

  /** `joinToString(d)`: the inverse of `Split`. */
  function Join(parts: seq<string>, d: string): string
    requires |parts| > 0
  {
    if |parts| == 1 then parts[0] else parts[0] + d + Join(parts[1..], d)
  }

  predicate Free(s: string, d: string) {
    forall j :: 0 <= j <= |s| ==> !OccursAt(s, d, j)
  }

  /** Splitting loses nothing: joining the pieces with the delimiter gives the string back. */
  lemma {:induction false} SplitJoin(s: string, d: string)
    requires |d| > 0
    decreases |s|
    ensures |Split(s, d)| > 0
    ensures Join(Split(s, d), d) == s
  {
    var r := IndexOf(s, d, 0);
    if r.Some? {
      var j := r.value;
      var rest := s[j + |d|..];
      var tail := Split(rest, d);
      SplitJoin(rest, d);
      assert Split(s, d) == [s[..j]] + tail;
      var parts := [s[..j]] + tail;
      assert parts[1..] == tail;
      assert Join(parts, d) == s[..j] + d + Join(tail, d);
      assert s[j..j + |d|] == d;
      assert s == s[..j] + s[j..j + |d|] + rest;
    }
  }

  /** The text before the first occurrence of the delimiter does not contain it. */
  lemma PrefixFree(s: string, d: string, j: nat)
    requires |d| > 0 && j <= |s|
    requires forall i :: 0 <= i < j ==> !OccursAt(s, d, i)
    ensures Free(s[..j], d)
  {
    forall i | 0 <= i <= j ensures !OccursAt(s[..j], d, i) {
      if OccursAt(s[..j], d, i) {
        assert s[..j][i..i + |d|] == s[i..i + |d|];
        assert OccursAt(s, d, i);
      }
    }
  }

  /** No piece produced by `Split` contains the delimiter. */
  lemma {:induction false} SplitPiecesFree(s: string, d: string)
    requires |d| > 0
    decreases |s|
    ensures forall k :: 0 <= k < |Split(s, d)| ==> Free(Split(s, d)[k], d)
  {
    var r := IndexOf(s, d, 0);
    if r.None? {
      assert s[..|s|] == s;
      PrefixFree(s, d, |s|);
    } else {
      var j := r.value;
      var rest := s[j + |d|..];
      var tail := Split(rest, d);
      SplitPiecesFree(rest, d);
      PrefixFree(s, d, j);
      assert Split(s, d) == [s[..j]] + tail;
    }
  }

  /** A prefix sharing no character with `d` holds no occurrence of `d`. */
  lemma DisjointPrefix(s: string, p: string, d: string)
    requires |d| > 0 && |p| <= |s| && s[..|p|] == p
    requires forall i :: 0 <= i < |p| ==> p[i] !in d
    ensures forall j :: 0 <= j < |p| ==> !OccursAt(s, d, j)
  {
    forall j | 0 <= j < |p| ensures !OccursAt(s, d, j) {
      assert s[j] == p[j];
      if j + |d| <= |s| {
        assert s[j..j + |d|][0] == s[j];
        assert d[0] in d;
      }
    }
  }

  /**
   * Pieces that share no character with the delimiter come back unchanged
   * from splitting their join.
   */
  lemma {:induction false} SplitJoinDisjoint(parts: seq<string>, d: string)
    requires |d| > 0 && |parts| > 0
    requires forall k, i :: 0 <= k < |parts| && 0 <= i < |parts[k]| ==> parts[k][i] !in d
    decreases |parts|
    ensures Split(Join(parts, d), d) == parts
  {
    var s := Join(parts, d);
    var p := parts[0];
    if |parts| == 1 {
      assert s == p && s[..|p|] == p;
      DisjointPrefix(s, p, d);
      assert IndexOf(s, d, 0).None?;
    } else {
      var rest := parts[1..];
      var tail := Join(rest, d);
      assert s == p + d + tail;
      assert s[..|p|] == p;
      DisjointPrefix(s, p, d);
      assert s[|p|..|p| + |d|] == d;
      assert OccursAt(s, d, |p|);
      var r := IndexOf(s, d, 0);
      assert r.Some?;
      assert !(r.value < |p|) && !(r.value > |p|);
      assert s[|p| + |d|..] == tail;
      SplitJoinDisjoint(rest, d);
    }
  }
}
