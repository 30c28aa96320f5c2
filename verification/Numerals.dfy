/** Decimal text of integers, written and read, and lower-case hexadecimal digits. */
module Numerals {
  import opened Common

  function Digit(n: nat): (c: char)
    requires n < 10
    ensures '0' <= c <= '9' && c as int == 48 + n
  {
    (48 + n) as char
  }

  function Decimal(n: nat): (s: string)
    ensures |s| > 0 && forall c :: c in s ==> '0' <= c <= '9'
    ensures s[0] == '0' ==> s == "0"
  {
    if n < 10 then [Digit(n)] else Decimal(n / 10) + [Digit(n % 10)]
  }

  function Integer(n: int): string {
    if n < 0 then "-" + Decimal(-n) else Decimal(n)
  }

  function HexDigit(n: nat): (c: char)
    requires n < 16
    ensures c == "0123456789abcdef"[n]
  {
    if n < 10 then (48 + n) as char else (87 + n) as char
  }

  predicate AllDigits(t: string) {
    forall k :: 0 <= k < |t| ==> '0' <= t[k] <= '9'
  }

  /** The number a digit string stands for, in base ten. */
  function Magnitude(ds: string): nat
    requires AllDigits(ds)
  {
    if ds == "" then 0 else Magnitude(ds[..|ds| - 1]) * 10 + (ds[|ds| - 1] as int - 48)
  }

  /** `str::parse` for an unbounded unsigned integer without a sign: no digits is an error. */
  function DecimalValue(t: string): Option<nat> {
    if t != "" && AllDigits(t) then Some(Magnitude(t)) else None
  }

  /** Reading undoes writing. */
  lemma {:induction false} DecimalReadsBack(n: nat)
    ensures AllDigits(Decimal(n)) && Magnitude(Decimal(n)) == n
  {
    var d := Decimal(n);
    assert forall k :: 0 <= k < |d| ==> d[k] in d;
    if n >= 10 {
      DecimalReadsBack(n / 10);
      assert d[..|d| - 1] == Decimal(n / 10);
    } else {
      assert d[..0] == "" && Magnitude("") == 0;
    }
  }
}
