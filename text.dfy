/** The string normalisation shared by the viewer and the exporters:
    JavaScript's `trim()` and the lower-casing of addresses. */
module Text {

  /** The code points `String.prototype.trim` strips: WhiteSpace and
      LineTerminator of ECMAScript (tab, LF, VT, FF, CR, space, NBSP, the
      Zs separators, LS, PS and the BOM). */
  predicate IsJsSpace(c: char) {
    var k := c as int;
    if k < 0x2000 then
      (0x09 <= k <= 0x0D) || k == 0x20 || k == 0xA0 || k == 0x1680
    else
      k <= 0x200A || k == 0x2028 || k == 0x2029 || k == 0x202F || k == 0x205F
      || k == 0x3000 || k == 0xFEFF
  }

  /** No whitespace at either end. */
  predicate Trimmed(s: string) {
    s == [] || (!IsJsSpace(s[0]) && !IsJsSpace(s[|s| - 1]))
  }

  /** How many whitespace characters `s` starts with. */
  function LeadingSpace(s: string): (n: nat)
    ensures n <= |s|
    ensures n == |s| || !IsJsSpace(s[n])
  {
    if s != [] && IsJsSpace(s[0]) then
      var m := LeadingSpace(s[1..]);
      assert m == |s| - 1 || s[1 + m] == s[1..][m];
      1 + m
    else 0
  }

  /** How many whitespace characters `s` ends with. */
  function TrailingSpace(s: string): (n: nat)
    ensures n <= |s|
    ensures n == |s| || !IsJsSpace(s[|s| - 1 - n])
  {
    if s != [] && IsJsSpace(s[|s| - 1]) then
      var m := TrailingSpace(s[..|s| - 1]);
      assert m == |s| - 1 || s[|s| - 2 - m] == s[..|s| - 1][|s| - 2 - m];
      1 + m
    else 0
  }

  /** `s.trim()`: `s` without its leading and trailing whitespace. */
  function Trim(s: string): (r: string)
    ensures Trimmed(r)
  {
    var t := s[LeadingSpace(s)..];
    t[..|t| - TrailingSpace(t)]
  }

  /** Only whitespace is counted at the front. */
  lemma {:induction false} LeadingSpaceIsSpace(s: string)
    ensures forall i :: 0 <= i < LeadingSpace(s) ==> IsJsSpace(s[i])
  {
    if s != [] && IsJsSpace(s[0]) {
      LeadingSpaceIsSpace(s[1..]);
      forall i | 1 <= i < LeadingSpace(s) ensures IsJsSpace(s[i]) {
        assert s[i] == s[1..][i - 1];
      }
    }
  }

  /** Only whitespace is counted at the back. */
  lemma {:induction false} TrailingSpaceIsSpace(s: string)
    ensures forall i :: |s| - TrailingSpace(s) <= i < |s| ==> IsJsSpace(s[i])
  {
    if s != [] && IsJsSpace(s[|s| - 1]) {
      TrailingSpaceIsSpace(s[..|s| - 1]);
      forall i | |s| - TrailingSpace(s) <= i < |s| - 1 ensures IsJsSpace(s[i]) {
        assert s[i] == s[..|s| - 1][i];
      }
    }
  }

  /** `trim()` keeps one contiguous piece of its input, and what it cuts off,
      at either end, is whitespace. */
  lemma TrimCutsOnlySpace(s: string)
    ensures var lo := LeadingSpace(s);
            && lo + |Trim(s)| <= |s| && Trim(s) == s[lo..lo + |Trim(s)|]
            && (forall i :: 0 <= i < lo ==> IsJsSpace(s[i]))
            && (forall i :: lo + |Trim(s)| <= i < |s| ==> IsJsSpace(s[i]))
  {
    var lo := LeadingSpace(s);
    var t := s[lo..];
    var hi := lo + |Trim(s)|;
    LeadingSpaceIsSpace(s);
    TrailingSpaceIsSpace(t);
    forall i | hi <= i < |s| ensures IsJsSpace(s[i]) {
      assert s[i] == t[i - lo];
    }
  }

  /** Lower-casing of one character (ASCII letters only; see README). */
  function LowerChar(c: char): char {
    if 'A' <= c <= 'Z' then (c as int + 32) as char else c
  }

  /** `s.toLowerCase()` / Python's `s.lower()`, character by character. */
  function ToLower(s: string): (r: string)
    ensures |r| == |s|
    ensures forall i :: 0 <= i < |s| ==> r[i] == LowerChar(s[i])
  {
    seq(|s|, i requires 0 <= i < |s| => LowerChar(s[i]))
  }

  /** The sender/receiver normal form of the viewer: `s.trim().toLowerCase()`. */
  function Normalize(s: string): string {
    ToLower(Trim(s))
  }

  lemma TrimOfTrimmed(s: string)
    requires Trimmed(s)
    ensures Trim(s) == s
  {
  }

  /** Lower-casing never turns a character into whitespace or back, and is
      idempotent. */
  lemma LowerCharFacts(c: char)
    ensures IsJsSpace(LowerChar(c)) == IsJsSpace(c)
    ensures LowerChar(LowerChar(c)) == LowerChar(c)
  {
  }

  /** Lower-casing twice is lower-casing once. */
  lemma ToLowerIdempotent(s: string)
    ensures ToLower(ToLower(s)) == ToLower(s)
  {
    var l := ToLower(s);
    forall i | 0 <= i < |l| ensures LowerChar(l[i]) == l[i] {
      LowerCharFacts(s[i]);
    }
    assert ToLower(l) == l;
  }

  /** Normalising twice is normalising once: a normalised string is trimmed and
      has no upper-case letter left. */
  lemma {:induction false} NormalizeIdempotent(s: string)
    ensures Normalize(Normalize(s)) == Normalize(s)
  {
    var t := Trim(s);
    NormalizeTrimmed(s);
    TrimOfTrimmed(ToLower(t));
    ToLowerIdempotent(t);
  }

  /** Trimming leaves no whitespace-only result other than "": a non-empty
      normal form starts and ends with a visible character. */
  lemma NormalizeTrimmed(s: string)
    ensures Trimmed(Normalize(s))
  {
    var t := Trim(s);
    if t != [] {
      LowerCharFacts(t[0]);
      LowerCharFacts(t[|t| - 1]);
    }
  }

  /** A string that is already trimmed and has no upper-case letter is its
      own normal form. */
  lemma NormalizeOfNormal(s: string)
    requires Trimmed(s)
    requires forall i :: 0 <= i < |s| ==> !('A' <= s[i] <= 'Z')
    ensures Normalize(s) == s
  {
    TrimOfTrimmed(s);
    var l := ToLower(s);
    forall i | 0 <= i < |s| ensures l[i] == s[i] {
    }
    assert l == s;
  }

  /** Lower-casing keeps the empty string and only it empty. */
  lemma ToLowerEmpty(s: string)
    ensures ToLower(s) == "" <==> s == ""
  {
  }
}
