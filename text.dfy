/**
 * String helpers the exporters rely on: ordinal case-insensitive comparison,
 * substring and suffix tests, and decimal digit strings.
 *
 * Case-insensitive comparison folds ASCII letters to upper case; this is the
 * part of .NET's `OrdinalIgnoreCase` that the asset names and keys exercise.
 */
module Text {

  predicate IsLowerAscii(c: char) { 'a' <= c <= 'z' }

  predicate IsDigit(c: char) { '0' <= c <= '9' }

  /** Folds one character for an ordinal case-insensitive comparison. */
  function FoldChar(c: char): (f: char)
    ensures !IsLowerAscii(f)
    ensures f == c || (IsLowerAscii(c) && f as int == c as int - 32)
  {
    if IsLowerAscii(c) then (c as int - 32) as char else c
  }

  /** The key a case-insensitive dictionary files `s` under. */
  function Fold(s: string): (r: string)
    ensures |r| == |s|
    ensures forall i :: 0 <= i < |s| ==> r[i] == FoldChar(s[i])
  {
    seq(|s|, i requires 0 <= i < |s| => FoldChar(s[i]))
  }

  /** Folding twice is folding once, so a folded key is its own dictionary key. */
  lemma FoldIdempotent(s: string)
    ensures Fold(Fold(s)) == Fold(s)
  {
  }

  predicate EqualsIgnoreCase(a: string, b: string) { Fold(a) == Fold(b) }

  /** `s.EndsWith(suffix, StringComparison.OrdinalIgnoreCase)`. */
  function EndsWithIgnoreCase(s: string, suffix: string): (b: bool)
    ensures b <==> (|suffix| <= |s| &&
                    forall i :: 0 <= i < |suffix| ==> FoldChar(s[|s| - |suffix| + i]) == FoldChar(suffix[i]))
  {
    |suffix| <= |s| && EqualsIgnoreCase(s[|s| - |suffix|..], suffix)
  }

  /** `t` occurs in `s` starting at index `i`. */
  predicate OccursAt(s: string, t: string, i: nat)
  {
    i + |t| <= |s| && s[i..i + |t|] == t
  }

  /** `s.Contains(t)` with ordinal comparison. */
  function Contains(s: string, t: string): (b: bool)
    ensures b <==> exists i: nat :: OccursAt(s, t, i)
    decreases |s|
  {
    if |s| < |t| then false
    else if s[..|t|] == t then assert OccursAt(s, t, 0); true
    else
      var rest := Contains(s[1..], t);
      assert forall i: nat :: OccursAt(s, t, i + 1) <==> OccursAt(s[1..], t, i) by {
        forall i: nat ensures OccursAt(s, t, i + 1) <==> OccursAt(s[1..], t, i) {
          if i + 1 + |t| <= |s| {
            assert forall k :: i + 1 <= k < i + 1 + |t| ==> s[k] == s[1..][k - 1];
          }
        }
      }
      assert !OccursAt(s, t, 0);
      assert (exists i: nat :: OccursAt(s, t, i)) ==> rest by {
        if exists i: nat :: OccursAt(s, t, i) {
          var i: nat :| OccursAt(s, t, i);
          assert i > 0 && OccursAt(s[1..], t, i - 1);
        }
      }
      rest
  }

  predicate AllDigits(d: string) { forall i :: 0 <= i < |d| ==> IsDigit(d[i]) }

  function DigitChar(n: nat): (c: char)
    requires n < 10
    ensures IsDigit(c) && c as int - '0' as int == n
  {
    ('0' as int + n) as char
  }

  /** The number a string of decimal digits denotes (`int.Parse` without its overflow check). */
  function Pow10(n: nat): (p: nat)
    ensures p >= 1
  {
    if n == 0 then 1 else 10 * Pow10(n - 1)
  }

  function DecimalValue(d: string): (v: nat)
    requires AllDigits(d)
    ensures v < Pow10(|d|)
  {
    if |d| == 0 then 0 else DecimalValue(d[..|d| - 1]) * 10 + (d[|d| - 1] as int - '0' as int)
  }

  /** `n.ToString("00")` for the two-digit range: zero-padded to width two. */
  function Pad2(n: nat): (d: string)
    requires n < 100
    ensures |d| == 2 && AllDigits(d) && DecimalValue(d) == n
  {
    var d := [DigitChar(n / 10), DigitChar(n % 10)];
    assert d[..1] == [DigitChar(n / 10)] && d[..1][..0] == [];
    assert DecimalValue(d[..1]) == n / 10;
    d
  }

  lemma Pad2Injective(m: nat, n: nat)
    requires m < 100 && n < 100
    ensures Pad2(m) == Pad2(n) ==> m == n
  {
  }
}
