/** Shortest numerals in bases eight and ten, and Python's zero-padded octal fields. */
module Numerals {
  import opened Bytes

  predicate Radix(r: nat) {
    r == 8 || r == 10
  }

  /** `str(n)` for r == 10 and `f"{n:o}"` for r == 8. */
  function Numeral(n: nat, r: nat): (s: bytes)
    requires Radix(r)
    ensures |s| >= 1 && forall i :: 0 <= i < |s| ==> 48 <= s[i] < 48 + r
  {
    if n < r then [48 + n] else Numeral(n / r, r) + [48 + n % r]
  }

  predicate IsNumeral(s: bytes, r: nat) {
    s != [] && forall i :: 0 <= i < |s| ==> 48 <= s[i] < 48 + r
  }

  function Value(s: bytes, r: nat): nat
    requires Radix(r) && forall i :: 0 <= i < |s| ==> 48 <= s[i] < 48 + r
    decreases |s|
  {
    if s == [] then 0 else Value(s[..|s| - 1], r) * r + (s[|s| - 1] - 48)
  }

  lemma {:induction false} ValueOfNumeral(n: nat, r: nat)
    requires Radix(r)
    ensures Value(Numeral(n, r), r) == n
  {
    if n < r {
      assert Numeral(n, r)[..0] == [];
    } else {
      ValueOfNumeral(n / r, r);
      var s := Numeral(n, r);
      assert s[..|s| - 1] == Numeral(n / r, r);
    }
  }

  lemma {:induction false} ValueSkipsZeros(k: nat, s: bytes, r: nat)
    requires Radix(r) && IsNumeral(s, r)
    ensures IsNumeral(Repeat(48, k) + s, r) && Value(Repeat(48, k) + s, r) == Value(s, r)
    decreases |s|
  {
    var t := Repeat(48, k) + s;
    if |s| == 1 {
      assert t[..|t| - 1] == Repeat(48, k);
      assert s[..0] == [];
      ValueOfZeros(k, r);
    } else {
      assert t[..|t| - 1] == Repeat(48, k) + s[..|s| - 1];
      ValueSkipsZeros(k, s[..|s| - 1], r);
    }
  }

  lemma {:induction false} ValueOfZeros(k: nat, r: nat)
    requires Radix(r)
    ensures Value(Repeat(48, k), r) == 0
  {
    if k > 0 {
      assert Repeat(48, k)[..k - 1] == Repeat(48, k - 1);
      ValueOfZeros(k - 1, r);
    }
  }

  /** `f"{value:0{width - 1}o}".encode("ascii") + b"\0"`; wider than `width` when the value does not fit. */
  function OctalField(value: nat, width: nat): (s: bytes)
    requires width >= 1
    ensures |s| >= width
  {
    var digits := Numeral(value, 8);
    Repeat(48, if |digits| < width - 1 then width - 1 - |digits| else 0) + digits + [0]
  }

  predicate Fits(value: nat, width: nat)
    requires width >= 1
  {
    |OctalField(value, width)| == width
  }

  /** What a reader of an octal field gets back: the digits before the final NUL. */
  function ReadOctal(field: bytes): Option<nat> {
    if |field| >= 2 && IsNumeral(field[..|field| - 1], 8) && field[|field| - 1] == 0
    then Some(Value(field[..|field| - 1], 8)) else None
  }

  lemma ReadOctalField(value: nat, width: nat)
    requires width >= 2
    ensures ReadOctal(OctalField(value, width)) == Some(value)
  {
    var digits := Numeral(value, 8);
    var k := if |digits| < width - 1 then width - 1 - |digits| else 0;
    var f := OctalField(value, width);
    assert f[..|f| - 1] == Repeat(48, k) + digits;
    ValueSkipsZeros(k, digits, 8);
    ValueOfNumeral(value, 8);
  }

  lemma {:induction false} NumeralLength(n: nat, r: nat)
    requires Radix(r)
    ensures 2 * |Numeral(n, r)| <= n + 2
  {
    if n >= r {
      NumeralLength(n / r, r);
    }
  }

  lemma {:induction false} NumeralMonotone(m: nat, n: nat, r: nat)
    requires Radix(r) && m <= n
    ensures |Numeral(m, r)| <= |Numeral(n, r)|
  {
    if m >= r {
      assert m / r <= n / r by { if r == 8 {} else {} }
      NumeralMonotone(m / r, n / r, r);
    }
  }

  lemma {:induction false} NumeralFits(n: nat, k: nat)
    requires 1 <= k && n < Power8(k)
    ensures |Numeral(n, 8)| <= k
  {
    if n >= 8 { NumeralFits(n / 8, k - 1); }
  }

  function Power8(k: nat): (p: nat)
    ensures p >= 1
  {
    if k == 0 then 1 else 8 * Power8(k - 1)
  }
}
