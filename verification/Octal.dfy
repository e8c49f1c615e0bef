/** Octal numbers as tar headers hold them: ASCII digits, padded, terminated. */
module Octal {
  import opened Bytes

  const ZERO: byte := 48

  predicate IsDigit(b: byte) {
    48 <= b < 56
  }

  ghost predicate AllDigits(s: seq<byte>) {
    forall i | 0 <= i < |s| :: IsDigit(s[i])
  }

  /** `n.toString(8)`. */
  function Digits(n: nat): (r: seq<byte>)
    ensures |r| >= 1 && AllDigits(r)
  {
    if n < 8 then [(48 + n) as byte] else Digits(n / 8) + [(48 + n % 8) as byte]
  }

  function Zeros(n: nat): (r: seq<byte>)
    ensures |r| == n && AllDigits(r) && forall i | 0 <= i < n :: r[i] == ZERO
  {
    if n == 0 then [] else [ZERO] + Zeros(n - 1)
  }

  /** `padStart(width, '0')`. */
  function Pad(s: seq<byte>, width: nat): (r: seq<byte>)
    ensures |r| == if |s| >= width then |s| else width
    ensures AllDigits(s) ==> AllDigits(r)
  {
    if |s| >= width then s else Zeros(width - |s|) + s
  }

  /** The number a digit string stands for. */
  function Value(s: seq<byte>): nat
    requires AllDigits(s)
  {
    if s == [] then 0 else 8 * Value(s[..|s| - 1]) + (s[|s| - 1] as int - 48)
  }

  /** The digits at the front of a text. */
  function Leading(s: seq<byte>): (r: seq<byte>)
    ensures AllDigits(r) && |r| <= |s| && s[..|r|] == r
    ensures |r| < |s| ==> !IsDigit(s[|r|])
  {
    if s == [] || !IsDigit(s[0]) then [] else [s[0]] + Leading(s[1..])
  }

  function Pow8(k: nat): nat {
    if k == 0 then 1 else 8 * Pow8(k - 1)
  }

  /** Each digit counts eight times the next one. */
  lemma PlaceValue(s: seq<byte>, d: byte)
    requires AllDigits(s) && 48 <= d < 56
    ensures Value([d]) == d as int - 48 && AllDigits(s + [d]) && Value(s + [d]) == 8 * Value(s) + (d as int - 48)
  {
    assert (s + [d])[..|s|] == s;
  }

  // ---- print and parse agree -----------------------------------------------------

  lemma {:induction false} ValueOfDigits(n: nat)
    ensures Value(Digits(n)) == n
  {
    if n < 8 {
      assert Digits(n)[..0] == [];
    } else {
      var d := (48 + n % 8) as byte;
      assert Digits(n)[..|Digits(n)| - 1] == Digits(n / 8);
      ValueOfDigits(n / 8);
    }
  }

  lemma {:induction false} ValueOfZeros(k: nat, s: seq<byte>)
    requires AllDigits(s)
    ensures AllDigits(Zeros(k) + s) && Value(Zeros(k) + s) == Value(s)
    decreases |s|, k
  {
    var z := Zeros(k) + s;
    if s == [] {
      assert z == Zeros(k);
      if k > 0 {
        assert z[..|z| - 1] == Zeros(k - 1) by {
          assert |z[..|z| - 1]| == k - 1;
        }
        assert Zeros(k - 1) + [] == Zeros(k - 1);
        ValueOfZeros(k - 1, []);
      }
    } else {
      assert z[..|z| - 1] == Zeros(k) + s[..|s| - 1];
      ValueOfZeros(k, s[..|s| - 1]);
    }
  }

  lemma ValueOfPadded(n: nat, width: nat)
    ensures Value(Pad(Digits(n), width)) == n
  {
    ValueOfDigits(n);
    if |Digits(n)| < width {
      ValueOfZeros(width - |Digits(n)|, Digits(n));
    }
  }

  /** A padded number is read back, whatever non-digit follows it. */
  lemma {:induction false} LeadingOf(s: seq<byte>, rest: seq<byte>)
    requires AllDigits(s) && (rest == [] || !IsDigit(rest[0]))
    ensures Leading(s + rest) == s
  {
    if s == [] {
      assert s + rest == rest;
    } else {
      assert (s + rest)[1..] == s[1..] + rest;
      LeadingOf(s[1..], rest);
    }
  }

  lemma {:induction false} PowPositive(k: nat)
    ensures Pow8(k) >= 1
  {
    if k > 0 { PowPositive(k - 1); }
  }

  /** A number has at most `k` digits exactly when it is below the `k`-th power. */
  lemma {:induction false} DigitCount(n: nat, k: nat)
    requires k >= 1
    ensures n < Pow8(k) <==> |Digits(n)| <= k
    decreases k
  {
    PowPositive(k - 1);
    if n < 8 {
      assert Pow8(k) >= 8;
    } else if k == 1 {
      assert Pow8(1) == 8 * Pow8(0) == 8;
    } else {
      DigitCount(n / 8, k - 1);
      assert n < 8 * Pow8(k - 1) <==> n / 8 < Pow8(k - 1);
    }
  }

  /** Losing digits at the end makes a number smaller. */
  lemma {:induction false} PrefixIsLess(n: nat, k: nat)
    requires 1 <= k < |Digits(n)|
    ensures AllDigits(Digits(n)[..k]) && Value(Digits(n)[..k]) < n
  {
    var d, e := Digits(n), Digits(n / 8);
    assert d == e + [(48 + n % 8) as byte];
    assert d[..k] == e[..k];
    if k < |e| {
      PrefixIsLess(n / 8, k);
    } else {
      ValueOfDigits(n / 8);
      assert e[..k] == e;
    }
  }
}
