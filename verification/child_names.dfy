/** Child names of the synthetic providers. Every child a provider creates is
    named `"[%s]" % i`; `get_child_index` maps such a name back to `i`. The
    decimal text of a count also appears in the length summary. */
module ChildNames {
  import Text

  predicate IsDigit(c: char) {
    '0' as int <= c as int <= '9' as int
  }

  function DigitValue(c: char): (d: nat)
    requires IsDigit(c)
    ensures d < 10
  {
    c as int - '0' as int
  }

  /** Python's `str.isdigit()`, restricted to ASCII digits: non-empty and
      digits only. */
  predicate IsDigits(s: string) {
    |s| >= 1 && forall i :: 0 <= i < |s| ==> IsDigit(s[i])
  }

  function DigitChar(d: nat): char
    requires d < 10
  {
    "0123456789"[d]
  }

  /** Python's `int(s)` on a string of ASCII digits (leading zeros allowed). */
  function ParseDigits(s: string): nat
    requires forall i :: 0 <= i < |s| ==> IsDigit(s[i])
  {
    if |s| == 0 then 0
    else 10 * ParseDigits(s[..|s| - 1]) + DigitValue(s[|s| - 1])
  }

  /** Python's `str(n)` for a non-negative integer: decimal, no leading zero. */
  function NatToString(n: nat): (s: string)
    ensures IsDigits(s)
    ensures s[0] != '0' || n == 0
    ensures s[0] != '[' && s[|s| - 1] != ']'
  {
    if n < 10 then [DigitChar(n)] else NatToString(n / 10) + [DigitChar(n % 10)]
  }

  /** The name `"[%s]" % i` of child number `i`. */
  function ChildName(i: nat): string {
    "[" + NatToString(i) + "]"
  }

  /** `get_child_index`: strip every leading `[` and every trailing `]`; a
      remaining non-empty run of digits is the index, anything else is -1. */
  function ChildIndex(name: string): (r: int)
    ensures r >= -1
    ensures r >= 0 <==> IsDigits(Text.StripTrailing(Text.StripLeading(name, '['), ']'))
  {
    var index := Text.StripTrailing(Text.StripLeading(name, '['), ']');
    if IsDigits(index) then ParseDigits(index) else -1
  }

  /** `int(str(n)) == n`. */
  lemma {:induction false} ParseNatToString(n: nat)
    ensures ParseDigits(NatToString(n)) == n
  {
    if n >= 10 {
      ParseNatToString(n / 10);
      var s := NatToString(n);
      assert s[..|s| - 1] == NatToString(n / 10);
    }
  }

  /** `ParseDigits` of a digit string with a non-zero first digit is positive. */
  lemma {:induction false} ParsePositive(s: string)
    requires IsDigits(s) && s[0] != '0'
    ensures ParseDigits(s) >= 1
  {
    if |s| > 1 {
      ParsePositive(s[..|s| - 1]);
    }
  }

  /** `str(int(s)) == s` for a digit string in canonical form (no leading zero
      unless it is `"0"`): decimal text and its value determine each other. */
  lemma {:induction false} NatToStringParse(s: string)
    requires IsDigits(s) && (s[0] != '0' || |s| == 1)
    ensures NatToString(ParseDigits(s)) == s
  {
    var n := ParseDigits(s);
    var last := DigitValue(s[|s| - 1]);
    if |s| == 1 {
      assert ParseDigits(s[..0]) == 0;
      assert n == last;
      assert NatToString(n) == [DigitChar(last)];
    } else {
      var init := s[..|s| - 1];
      ParsePositive(init);
      NatToStringParse(init);
      assert n == 10 * ParseDigits(init) + last;
      assert n / 10 == ParseDigits(init) && n % 10 == last;
      assert s == init + [s[|s| - 1]];
    }
  }

  /** Every child a provider names is found again under that name:
      `get_child_index("[%s]" % i) == i`. */
  lemma ChildNameRoundTrip(i: nat)
    ensures ChildIndex(ChildName(i)) == i
  {
    var digits := NatToString(i);
    var name := ChildName(i);
    var left := Text.StripLeading(name, '[');
    assert name[0] == '[' && name[1] != '[';
    assert left == name[1..];
    var both := Text.StripTrailing(left, ']');
    assert left == digits + "]";
    assert both == digits;
    ParseNatToString(i);
  }
}
