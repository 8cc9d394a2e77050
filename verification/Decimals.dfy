/** Decimal notation of natural numbers: Python's `str(n)`, `int(s)` and `f"{n:06d}"`. */
module Decimals {

  predicate IsDigit(c: char) { '0' <= c <= '9' }

  predicate AllDigits(s: string) {
    forall i :: 0 <= i < |s| ==> IsDigit(s[i])
  }

  function Digit(d: nat): (c: char)
    requires d < 10
    ensures IsDigit(c)
  {
    '0' + d as char
  }

  function Show(n: nat): (s: string)
    ensures s != [] && AllDigits(s)
  {
    if n < 10 then [Digit(n)] else Show(n / 10) + [Digit(n % 10)]
  }

  function Value(s: string): int
    requires AllDigits(s)
  {
    if s == [] then 0 else Value(s[..|s| - 1]) * 10 + (s[|s| - 1] - '0') as int
  }

  function Zeros(n: nat): (s: string)
    ensures |s| == n && AllDigits(s)
  {
    if n == 0 then [] else Zeros(n - 1) + ['0']
  }

  /** `f"{n:0{width}d}"` for a natural number. */
  function Padded(n: nat, width: nat): (s: string)
    ensures AllDigits(s) && s != []
  {
    if |Show(n)| >= width then Show(n) else Zeros(width - |Show(n)|) + Show(n)
  }

  lemma {:induction false} ValueOfShow(n: nat)
    ensures Value(Show(n)) == n
  {
    if n >= 10 {
      ValueOfShow(n / 10);
      assert Show(n)[..|Show(n)| - 1] == Show(n / 10);
    }
  }

  lemma {:induction false} ValueOfZeros(z: nat, s: string)
    requires AllDigits(s)
    ensures Value(Zeros(z) + s) == Value(s)
  {
    var t := Zeros(z) + s;
    if s == [] {
      assert t == Zeros(z);
      if z > 0 {
        assert t[..|t| - 1] == Zeros(z - 1) + [];
        ValueOfZeros(z - 1, []);
      }
    } else {
      assert t[..|t| - 1] == Zeros(z) + s[..|s| - 1];
      ValueOfZeros(z, s[..|s| - 1]);
    }
  }

  /** Reading a padded number back gives the number; hence padding is injective. */
  lemma ValueOfPadded(n: nat, width: nat)
    ensures Value(Padded(n, width)) == n
  {
    ValueOfShow(n);
    if |Show(n)| < width { ValueOfZeros(width - |Show(n)|, Show(n)); }
  }
}
