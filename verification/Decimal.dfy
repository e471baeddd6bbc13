/** `%ld` both ways: decimal numbers as `printf` writes and `scanf` and `atol` read them. */
module Decimal {
  import opened Text

  predicate IsDigit(c: char) {
    '0' <= c <= '9'
  }

  function DigitChar(d: nat): (c: char)
    requires d < 10
    ensures IsDigit(c)
  {
    '0' + d as char
  }

  function Digits(n: nat): (s: string)
    ensures s != "" && forall k | 0 <= k < |s| :: IsDigit(s[k])
  {
    if n < 10 then [DigitChar(n)] else Digits(n / 10) + [DigitChar(n % 10)]
  }

  function Show(n: int): (s: string)
    ensures s != "" && (s[0] == '-' || IsDigit(s[0]))
    ensures forall k | 0 <= k < |s| :: IsDigit(s[k]) || s[k] == '-'
  {
    if n < 0 then "-" + Digits(-n) else Digits(n)
  }

  function Value(s: string): nat
    requires forall k | 0 <= k < |s| :: IsDigit(s[k])
  {
    if s == "" then 0
    else
      assert IsDigit(s[|s| - 1]);
      10 * Value(s[..|s| - 1]) + (s[|s| - 1] as int - '0' as int)
  }

  /** Length of the leading run of digits. */
  function DigitRun(s: string): (n: nat)
    ensures n <= |s|
    ensures forall k | 0 <= k < n :: IsDigit(s[k])
    ensures n < |s| ==> !IsDigit(s[n])
  {
    if s == "" || !IsDigit(s[0]) then 0 else 1 + DigitRun(s[1..])
  }

  /** The range of a `long`. */
  predicate Is64Bit(n: int) {
    -0x8000_0000_0000_0000 <= n < 0x8000_0000_0000_0000
  }

  predicate IsSpace(c: char) {
    c in SPACES
  }

  function SkipSpace(s: string): string {
    if s != "" && IsSpace(s[0]) then SkipSpace(s[1..]) else s
  }

  /** `%ld`: white space, an optional sign, at least one digit; the value and the rest. */
  function ScanNumber(text: string): Option<(int, string)> {
    var s := SkipSpace(text);
    var signed := s != "" && (s[0] == '-' || s[0] == '+');
    var digits := if signed then s[1..] else s;
    var n := DigitRun(digits);
    if n == 0 then None
    else
      var v: int := Value(digits[..n]);
      Some((if signed && s[0] == '-' then -v else v, digits[n..]))
  }

  function Atol(text: string): int {
    var r := ScanNumber(text);
    if r.Some? then r.value.0 else 0
  }

  lemma {:induction false} ValueOfDigits(n: nat)
    ensures Value(Digits(n)) == n
  {
    if n < 10 {
      assert Digits(n)[..0] == "";
    } else {
      ValueOfDigits(n / 10);
      assert Digits(n)[..|Digits(n)| - 1] == Digits(n / 10);
    }
  }

  lemma DigitRunIs(ds: string, rest: string)
    requires forall k | 0 <= k < |ds| :: IsDigit(ds[k])
    requires rest == "" || !IsDigit(rest[0])
    ensures DigitRun(ds + rest) == |ds|
  {
    if ds == "" {
      assert ds + rest == rest;
    } else {
      assert (ds + rest)[1..] == ds[1..] + rest;
      DigitRunIs(ds[1..], rest);
    }
  }

  /** A printed number is read back, and reading stops right after it. */
  lemma NotSkipped(s: string)
    requires s != "" && (IsDigit(s[0]) || s[0] == '-')
    ensures SkipSpace(s) == s
  {
  }

  lemma ScanOfShow(n: int, rest: string)
    requires rest == "" || !IsDigit(rest[0])
    ensures ScanNumber(Show(n) + rest) == Some((n, rest))
  {
    var ds := Digits(if n < 0 then -n else n);
    ValueOfDigits(if n < 0 then -n else n);
    DigitRunIs(ds, rest);
    var s := Show(n) + rest;
    NotSkipped(s);
    hide IsSpace, SkipSpace, Value, Digits;
    assert (ds + rest)[..|ds|] == ds && (ds + rest)[|ds|..] == rest;
    if n < 0 {
      assert s[1..] == ds + rest;
    } else {
      assert s == ds + rest;
    }
  }

  lemma AtolOfShow(n: int)
    ensures Atol(Show(n)) == n
  {
    ScanOfShow(n, "");
    assert Show(n) + "" == Show(n);
  }

  function Power10(k: nat): nat {
    if k == 0 then 1 else 10 * Power10(k - 1)
  }

  lemma {:induction false} DigitsLength(n: nat, k: nat)
    requires k > 0 && n < Power10(k)
    ensures |Digits(n)| <= k
  {
    if n >= 10 {
      assert k > 1;
      DigitsLength(n / 10, k - 1);
    }
  }

  /** A 64-bit integer prints in at most 20 characters, a 32-bit one in at most 11. */
  lemma ShowLength(n: int)
    ensures Is64Bit(n) ==> |Show(n)| <= 20
    ensures -0x8000_0000 <= n < 0x8000_0000 ==> |Show(n)| <= 11
  {
    var m: nat := if n < 0 then -n else n;
    Powers();
    if -0x8000_0000_0000_0000 <= n < 0x8000_0000_0000_0000 {
      DigitsLength(m, 19);
    }
    if -0x8000_0000 <= n < 0x8000_0000 {
      DigitsLength(m, 10);
    }
  }

  lemma Powers()
    ensures Power10(10) == 1_00000_00000
    ensures Power10(19) == 1_0000_00000_00000_00000
  {
    assert Power10(5) == 1_00000;
    assert Power10(10) == 1_00000 * Power10(5);
    assert Power10(15) == 1_00000 * Power10(10);
    assert Power10(19) == 1_0000 * Power10(15);
  }
}
