/**
 Identifier normaliser: `EZUSBBackup.stripEndNumbers`, which maps a raw
 partition path such as `sdb1` to the logical device id `sdb` that groups
 all partitions of one physical disk.
 */
module Normalizer {

  /** `\d` in a java.util.regex pattern without UNICODE_CHARACTER_CLASS: ASCII digits only. */
  predicate IsDigit(c: char) {
    '0' <= c <= '9'
  }

  /** The characters `.` does not match when neither DOTALL nor UNIX_LINES is set. */
  predicate IsLineTerminator(c: char) {
    c == '\n' || c == '\r' || c == '\U{0085}' || c == '\U{2028}' || c == '\U{2029}'
  }

  /** No line terminator anywhere in `s`. */
  predicate SingleLine(s: string) {
    forall i :: 0 <= i < |s| ==> !IsLineTerminator(s[i])
  }

  /** Every character of `s` is a digit. */
  predicate AllDigits(s: string) {
    forall i :: 0 <= i < |s| ==> IsDigit(s[i])
  }

  /**
   `s.matches(".*\\d")`: the WHOLE string is a run of characters `.` accepts
   followed by exactly one digit.
   */
  predicate MatchesEndDigit(s: string) {
    |s| > 0 && IsDigit(s[|s| - 1]) && SingleLine(s[..|s| - 1])
  }

  /**
   `stripEndNumbers`: drop the last character while the regex matches. The
   result is a prefix of the input, only digits are removed, and the regex no
   longer matches the result.
   */
  function StripEndNumbers(s: string): (r: string)
    ensures r <= s
    ensures AllDigits(s[|r|..])
    ensures !MatchesEndDigit(r)
    decreases |s|
  {
    if MatchesEndDigit(s) then
      StripEndNumbers(s[..|s| - 1])
    else
      s
  }

  /** A string the regex does not match is returned unchanged. */
  lemma StripNonMatching(s: string)
    requires !MatchesEndDigit(s)
    ensures StripEndNumbers(s) == s
  {
  }

  /** Normalising twice is normalising once. */
  lemma StripIdempotent(s: string)
    ensures StripEndNumbers(StripEndNumbers(s)) == StripEndNumbers(s)
  {
  }

  /** A string with no line terminator loses its whole trailing digit run: the result is empty or ends in a non-digit. */
  lemma StripSingleLine(s: string)
    requires SingleLine(s)
    ensures var r := StripEndNumbers(s); |r| == 0 || !IsDigit(r[|r| - 1])
  {
  }

  /**
   A line terminator before the last character stops `.*` from matching, so
   such a string is never stripped, even when it ends in digits.
   */
  lemma StripMultiLine(s: string, i: nat)
    requires i < |s| - 1 && IsLineTerminator(s[i])
    ensures StripEndNumbers(s) == s
  {
  }

  /**
   Reference characterisation: for a single-line string, StripEndNumbers(s)
   is THE prefix of `s` that is followed only by digits and is empty or ends
   in a non-digit. Any prefix with those two properties is the result.
   */
  lemma StripCharacterised(s: string, p: string)
    requires SingleLine(s)
    ensures p == StripEndNumbers(s) <==>
              p <= s && AllDigits(s[|p|..]) && (|p| == 0 || !IsDigit(p[|p| - 1]))
  {
  }

  /** A string made only of digits normalises to the empty string. */
  lemma StripAllDigits(s: string)
    requires AllDigits(s)
    ensures StripEndNumbers(s) == ""
  {
  }

  /** The partitions of one disk share its logical id. */
  lemma StripExamples()
    ensures StripEndNumbers("sdb1") == "sdb"
    ensures StripEndNumbers("sdb2") == "sdb"
    ensures StripEndNumbers("nvme0n1p3") == "nvme0n1p"
  {
  }

  /**
   The same normalisation as a trim-while-digit loop: one scan for line
   terminators decides whether the regex can ever match, then trailing digits
   are dropped one at a time.
   */
  method TrimTrailingDigits(s: string) returns (r: string)
    ensures r == StripEndNumbers(s)
  {
    if |s| == 0 {
      return s;
    }
    var i := 0;
    while i < |s| - 1
      invariant 0 <= i <= |s| - 1
      invariant SingleLine(s[..i])
    {
      if IsLineTerminator(s[i]) {
        StripMultiLine(s, i);
        return s;
      }
      assert s[..i + 1] == s[..i] + [s[i]];
      i := i + 1;
    }
    var n := |s|;
    while n > 0 && IsDigit(s[n - 1])
      invariant 0 <= n <= |s|
      invariant n == 0 || SingleLine(s[..n - 1])
      invariant StripEndNumbers(s[..n]) == StripEndNumbers(s)
    {
      assert s[..n][..n - 1] == s[..n - 1];
      if n >= 2 {
        assert s[..n - 2] == s[..n - 1][..n - 2];
      }
      n := n - 1;
    }
    r := s[..n];
    if n > 0 {
      assert !MatchesEndDigit(r);
    }
  }
}
