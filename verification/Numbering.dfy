/** The zero-padded decimal indices of rotated files, `f"{n:04d}"`. */
module Numbering {
  import opened Text

  predicate AllDigits(s: string) {
    s != "" && forall i :: 0 <= i < |s| ==> IsDigit(s[i])
  }

  function Digit(d: nat): (c: char)
    requires d < 10
    ensures IsDigit(c) && (c as int) - ('0' as int) == d
  {
    '0' + (d as char)
  }

  function Decimal(n: nat): (s: string)
    ensures AllDigits(s)
  {
    if n < 10 then [Digit(n)] else Decimal(n / 10) + [Digit(n % 10)]
  }

  function Pad4(n: nat): (s: string)
    ensures AllDigits(s) && |s| >= 4
  {
    var d := Decimal(n);
    Repeat('0', if |d| < 4 then 4 - |d| else 0) + d
  }

  function Value(s: string): int {
    if s == "" then 0 else 10 * Value(s[..|s| - 1]) + (s[|s| - 1] as int - '0' as int)
  }

  lemma {:induction false} ValueOfDecimal(n: nat)
    ensures Value(Decimal(n)) == n
  {
    if n >= 10 {
      ValueOfDecimal(n / 10);
      assert Decimal(n)[..|Decimal(n)| - 1] == Decimal(n / 10);
    } else {
      assert Decimal(n)[..0] == "";
    }
  }

  lemma {:induction false} LeadingZeros(k: nat, s: string)
    ensures Value(Repeat('0', k) + s) == Value(s)
    decreases k + |s|
  {
    var t := Repeat('0', k) + s;
    if s != "" {
      assert t[..|t| - 1] == Repeat('0', k) + s[..|s| - 1];
      LeadingZeros(k, s[..|s| - 1]);
    } else if k > 0 {
      assert t[..|t| - 1] == Repeat('0', k - 1) + s;
      LeadingZeros(k - 1, s);
    } else {
      assert t == "";
    }
  }

  /** Distinct indices have distinct names, past 9999 as well. */
  lemma Pad4Injective(m: nat, n: nat)
    requires Pad4(m) == Pad4(n)
    ensures m == n
  {
    ValueOfDecimal(m);
    ValueOfDecimal(n);
    LeadingZeros(if |Decimal(m)| < 4 then 4 - |Decimal(m)| else 0, Decimal(m));
    LeadingZeros(if |Decimal(n)| < 4 then 4 - |Decimal(n)| else 0, Decimal(n));
  }

  /** The position of the first dot, the length when there is none. */
  function FirstDot(s: string): (i: nat)
    ensures i <= |s| && (i < |s| ==> s[i] == '.')
    ensures forall k :: 0 <= k < i ==> s[k] != '.'
  {
    if s == "" || s[0] == '.' then 0 else 1 + FirstDot(s[1..])
  }

  lemma FirstDotAt(a: string, b: string)
    requires forall k :: 0 <= k < |a| ==> a[k] != '.'
    ensures FirstDot(a + "." + b) == |a|
  {
    var s := a + "." + b;
    assert s[|a|] == '.';
    assert forall k :: 0 <= k < |a| ==> s[k] == a[k];
    assert FirstDot(s) <= |a|;
  }

  /** `rest` starts with the index `n` and a dot. */
  predicate Numbered(rest: string, n: nat) {
    Pad4(n) + "." <= rest
  }

  lemma NumberedOnce(rest: string, m: nat, n: nat)
    requires Numbered(rest, m) && Numbered(rest, n)
    ensures m == n
  {
    var a, b := Pad4(m), Pad4(n);
    assert rest == a + "." + rest[|a| + 1..];
    assert rest == b + "." + rest[|b| + 1..];
    FirstDotAt(a, rest[|a| + 1..]);
    FirstDotAt(b, rest[|b| + 1..]);
    assert rest[..|a|] == a && rest[..|b|] == b;
    Pad4Injective(m, n);
  }
}
