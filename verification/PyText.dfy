/**
 The Python string operations the marketplace relies on: `lower`, `strip`, `str(int)`,
 `int(str)`, and anchored regular expressions whose `$` also matches before one final newline.
 Case mapping and digits are those of ASCII.
 */
module PyText {

  // ---- Characters ------------------------------------------------------------------

  predicate IsDigit(c: char) {
    '0' <= c <= '9'
  }

  predicate IsHexDigit(c: char) {
    IsDigit(c) || 'a' <= c <= 'f' || 'A' <= c <= 'F'
  }

  /** The characters `str.strip()` removes. */
  predicate IsSpace(c: char) {
    var n := c as int;
    || 9 <= n <= 13 || 28 <= n <= 32 || n == 0x85 || n == 0xA0 || n == 0x1680
    || 0x2000 <= n <= 0x200A || n == 0x2028 || n == 0x2029 || n == 0x202F || n == 0x205F
    || n == 0x3000
  }

  function LowerChar(c: char): char {
    if 'A' <= c <= 'Z' then (c as int + 32) as char else c
  }

  function Lower(s: string): (r: string)
    ensures |r| == |s|
    ensures forall i :: 0 <= i < |s| ==> r[i] == LowerChar(s[i])
  {
    seq(|s|, i requires 0 <= i < |s| => LowerChar(s[i]))
  }

  predicate AllDigits(s: string) {
    forall i :: 0 <= i < |s| ==> IsDigit(s[i])
  }

  predicate AllHex(s: string) {
    forall i :: 0 <= i < |s| ==> IsHexDigit(s[i])
  }

  predicate AllSpace(s: string) {
    forall i :: 0 <= i < |s| ==> IsSpace(s[i])
  }

  /** The character classes, spelled out. */
  lemma ClassesAre(c: char)
    ensures IsDigit(c) <==> c in "0123456789"
    ensures IsHexDigit(c) <==> c in "0123456789abcdefABCDEF"
    ensures IsSpace(c) <==>
            || c in "\t\n\U{0B}\U{0C}\r\U{1C}\U{1D}\U{1E}\U{1F} \U{85}\U{A0}\U{1680}\U{2000}\U{2001}\U{2002}"
            || c in "\U{2003}\U{2004}\U{2005}\U{2006}\U{2007}\U{2008}\U{2009}\U{200A}"
            || c in "\U{2028}\U{2029}\U{202F}\U{205F}\U{3000}"
  {
  }

  /** `lower` replaces each capital by the small letter at its place in the alphabet and keeps the rest. */
  lemma LowerIs(s: string, i: nat)
    requires i < |s|
    ensures 'A' <= s[i] <= 'Z' ==> Lower(s)[i] as int - 'a' as int == s[i] as int - 'A' as int
    ensures !('A' <= s[i] <= 'Z') ==> Lower(s)[i] == s[i]
  {
  }

  // ---- str.strip -------------------------------------------------------------------

  function Strip(s: string): string {
    if s == "" then s
    else if IsSpace(s[0]) then Strip(s[1..])
    else if IsSpace(s[|s| - 1]) then Strip(s[..|s| - 1])
    else s
  }

  /** No whitespace at either end. */
  predicate Trimmed(s: string) {
    s != "" ==> !IsSpace(s[0]) && !IsSpace(s[|s| - 1])
  }

  /** Stripping removes exactly the outer whitespace, whatever its two halves are. */
  lemma {:induction false} StripRemovesPadding(left: string, core: string, right: string)
    requires AllSpace(left) && AllSpace(right) && Trimmed(core)
    ensures Strip(left + core + right) == core
    decreases |left| + |right|
  {
    var s := left + core + right;
    if left != "" {
      assert s[1..] == left[1..] + core + right;
      StripRemovesPadding(left[1..], core, right);
    } else if right != "" {
      assert s == core + right;
      if core == "" {
        assert s[1..] == "" + core + right[1..];
        StripRemovesPadding("", core, right[1..]);
      } else {
        assert s[..|s| - 1] == "" + core + right[..|right| - 1];
        StripRemovesPadding("", core, right[..|right| - 1]);
      }
    } else {
      assert s == core;
    }
  }

  lemma Prepend(s: string, left: string, core: string, right: string)
    requires s != "" && s[1..] == left + core + right
    ensures s == [s[0]] + left + core + right
  {
    assert s == [s[0]] + s[1..];
  }

  lemma Append(s: string, left: string, core: string, right: string)
    requires s != "" && s[..|s| - 1] == left + core + right
    ensures s == left + core + (right + [s[|s| - 1]])
  {
    assert s == s[..|s| - 1] + [s[|s| - 1]];
  }

  /** Every string splits into outer whitespace and what `strip` keeps. */
  lemma {:induction false} StripSplits(s: string) returns (left: string, right: string)
    ensures AllSpace(left) && AllSpace(right) && Trimmed(Strip(s))
    ensures s == left + Strip(s) + right
  {
    left, right := "", "";
    if s != "" && IsSpace(s[0]) {
      var inner;
      inner, right := StripSplits(s[1..]);
      left := [s[0]] + inner;
      Prepend(s, inner, Strip(s), right);
    } else if s != "" && IsSpace(s[|s| - 1]) {
      var inner;
      left, inner := StripSplits(s[..|s| - 1]);
      right := inner + [s[|s| - 1]];
      Append(s, left, Strip(s), inner);
    }
  }

  // ---- Decimal integers ------------------------------------------------------------

  function DigitChar(d: nat): (c: char)
    requires d < 10
    ensures IsDigit(c)
  {
    ('0' as int + d) as char
  }

  function DigitValue(c: char): (d: nat)
    requires IsDigit(c)
  {
    c as int - '0' as int
  }

  /** `str(n)` of a non-negative integer. */
  function FormatNat(n: nat): (s: string)
    ensures s != "" && AllDigits(s)
  {
    if n < 10 then [DigitChar(n)] else FormatNat(n / 10) + [DigitChar(n % 10)]
  }

  /** `int(s)` of a run of digits. */
  function ParseNat(s: string): nat
    requires AllDigits(s)
  {
    if s == "" then 0 else 10 * ParseNat(s[..|s| - 1]) + DigitValue(s[|s| - 1])
  }

  /** Printing an integer and reading it back gives the integer. */
  lemma {:induction false} ParseFormat(n: nat)
    ensures ParseNat(FormatNat(n)) == n
  {
    var s := FormatNat(n);
    if n >= 10 {
      ParseFormat(n / 10);
      assert s[..|s| - 1] == FormatNat(n / 10);
    } else {
      assert s[..|s| - 1] == "";
    }
  }

  /** Decimal notation: the digits before the last k count 10^k each, and each digit counts itself. */
  lemma {:induction false} ParseConcat(high: string, low: string)
    requires AllDigits(high) && AllDigits(low)
    ensures ParseNat(high + low) == ParseNat(high) * Pow10(|low|) + ParseNat(low)
  {
    if low == "" {
      assert high + low == high;
    } else {
      var last := |low| - 1;
      assert (high + low)[..|high + low| - 1] == high + low[..last];
      ParseConcat(high, low[..last]);
      TenTimes(ParseNat(high), last);
    }
  }

  lemma TenTimes(n: nat, k: nat)
    ensures n * Pow10(k + 1) == 10 * (n * Pow10(k))
  {
    assert Pow10(k + 1) == 10 * Pow10(k);
  }

  lemma {:induction false} DigitsAre(i: nat)
    requires i < 10
    ensures ParseNat(["0123456789"[i]]) == i && FormatNat(i) == ["0123456789"[i]]
  {
    var s := ["0123456789"[i]];
    assert s[..0] == "";
    assert "0123456789"[i] as int == '0' as int + i;
  }

  /** No number is printed with a leading zero. */
  lemma {:induction false} NoLeadingZero(n: nat)
    ensures FormatNat(n)[0] == '0' ==> n == 0
  {
    if n >= 10 {
      NoLeadingZero(n / 10);
      assert FormatNat(n)[0] == FormatNat(n / 10)[0];
    }
  }

  function Pow10(k: nat): nat {
    if k == 0 then 1 else 10 * Pow10(k - 1)
  }

  lemma TenMore(k: nat)
    ensures Pow10(k + 10) == 10_000_000_000 * Pow10(k)
  {
    assert Pow10(k + 5) == 100_000 * Pow10(k) by {
      assert Pow10(k + 1) == 10 * Pow10(k) && Pow10(k + 2) == 10 * Pow10(k + 1);
      assert Pow10(k + 3) == 10 * Pow10(k + 2) && Pow10(k + 4) == 10 * Pow10(k + 3);
    }
    assert Pow10(k + 6) == 10 * Pow10(k + 5) && Pow10(k + 7) == 10 * Pow10(k + 6);
    assert Pow10(k + 8) == 10 * Pow10(k + 7) && Pow10(k + 9) == 10 * Pow10(k + 8);
  }

  /** A number below 10^k prints with at most k digits. */
  lemma {:induction false} FormatLength(n: nat, k: nat)
    requires k > 0 && n < Pow10(k)
    ensures |FormatNat(n)| <= k
  {
    if n >= 10 {
      FormatLength(n / 10, k - 1);
    }
  }

  // ---- Anchored regular expressions ------------------------------------------------

  /** `$` matches at the end or before one final newline; the bodies used never match a newline. */
  function DropFinalNewline(s: string): (r: string)
    ensures r == s || s == r + "\n"
  {
    if s != "" && s[|s| - 1] == '\n' then s[..|s| - 1] else s
  }

  /** `0x` and exactly 40 hexadecimal digits. */
  predicate IsAddress(s: string) {
    |s| == 42 && s[..2] == "0x" && AllHex(s[2..])
  }

  /** `0x` and at least one hexadecimal digit. */
  predicate IsHex(s: string) {
    |s| > 2 && s[..2] == "0x" && AllHex(s[2..])
  }

  /** The pattern `^0x[0-9a-fA-F]{40}$`. */
  predicate MatchesAddress(s: string) {
    IsAddress(DropFinalNewline(s))
  }

  /** The pattern `^0x[0-9a-fA-F]+$`. */
  predicate MatchesHex(s: string) {
    IsHex(DropFinalNewline(s))
  }

  /** The pattern `^\d+$`. */
  predicate MatchesDigits(s: string) {
    DropFinalNewline(s) != "" && AllDigits(DropFinalNewline(s))
  }

  /** A string matches the address pattern exactly when it is `0x` and 40 hexadecimal digits, followed by
      nothing or by one newline. */
  lemma MatchesAddressIff(s: string)
    ensures MatchesAddress(s) <==>
            exists digits :: |digits| == 40 && AllHex(digits) && Anchored(s, "0x" + digits)
  {
    if MatchesAddress(s) {
      var core := DropFinalNewline(s);
      assert core == "0x" + core[2..];
    }
    if digits :| |digits| == 40 && AllHex(digits) && Anchored(s, "0x" + digits) {
      AnchoredIs(s, "0x" + digits);
      assert ("0x" + digits)[2..] == digits;
    }
  }

  /** Likewise with any positive number of digits. */
  lemma MatchesHexIff(s: string)
    ensures MatchesHex(s) <==> exists digits :: digits != "" && AllHex(digits) && Anchored(s, "0x" + digits)
  {
    if MatchesHex(s) {
      var core := DropFinalNewline(s);
      assert core == "0x" + core[2..];
    }
    if digits :| digits != "" && AllHex(digits) && Anchored(s, "0x" + digits) {
      AnchoredIs(s, "0x" + digits);
      assert ("0x" + digits)[2..] == digits;
    }
  }

  lemma MatchesDigitsIff(s: string)
    ensures MatchesDigits(s) <==> exists digits :: digits != "" && AllDigits(digits) && Anchored(s, digits)
  {
    if MatchesDigits(s) {
      assert Anchored(s, DropFinalNewline(s));
    }
    if digits :| digits != "" && AllDigits(digits) && Anchored(s, digits) {
      AnchoredIs(s, digits);
    }
  }

  /** What `^core$` matches: the core, with at most one newline after it. */
  predicate Anchored(s: string, core: string) {
    s == core || s == core + "\n"
  }

  lemma AnchoredIs(s: string, core: string)
    requires Anchored(s, core) && core != "" && IsHexDigit(core[|core| - 1])
    ensures DropFinalNewline(s) == core
  {
    if s != core {
      assert s[..|s| - 1] == core;
    }
  }

  /** A string free of newlines is matched as it stands. */
  lemma NoFinalNewline(s: string)
    requires IsAddress(s) || IsHex(s) || (s != "" && AllDigits(s))
    ensures DropFinalNewline(s) == s
  {
    if IsHex(s) || IsAddress(s) {
      assert s[|s| - 1] == s[2..][|s| - 3];
    }
  }
}
