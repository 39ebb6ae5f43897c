/** Java's 32-bit `int` as the rank-point code uses it: its range, the
    wrap-around of `+` and `-`, Math.addExact, Integer.parseInt in radix 10
    and Integer.toString (which is also what `n + ""` produces). */
module JavaInt {
  import opened Wrappers

  const MIN_VALUE: int := -0x8000_0000
  const MAX_VALUE: int := 0x7fff_ffff
  /** 2^32: `int` arithmetic is exact modulo this number. */
  const MODULUS: int := 0x1_0000_0000

  type Int32 = n: int | -0x8000_0000 <= n <= 0x7fff_ffff

  predicate InRange(n: int) {
    MIN_VALUE <= n <= MAX_VALUE
  }

  /** The `int` that Java's `+` or `-` yields when the exact result is n. */
  function Wrap(n: int): (r: Int32)
    ensures (r - n) % MODULUS == 0
    ensures InRange(n) ==> r == n
  {
    var m := n % MODULUS;
    if m <= MAX_VALUE then m else m - MODULUS
  }

  /** The difference of two multiples of 2^32 is one. */
  lemma DiffOfMultiples(x: int, y: int)
    requires x % MODULUS == 0 && y % MODULUS == 0
    ensures (x - y) % MODULUS == 0
  {
    var p, q := x / MODULUS, y / MODULUS;
    assert x - y == (p - q) * MODULUS;
  }

  /** Wrap is the only `int` congruent to n modulo 2^32. */
  lemma WrapUnique(n: int, r: int)
    requires InRange(r) && (r - n) % MODULUS == 0
    ensures Wrap(n) == r
  {
    var w := Wrap(n);
    DiffOfMultiples(w - n, r - n);
    assert (w - r) % MODULUS == 0;
  }

  /** Accumulating in an `int` variable wraps the same way as wrapping the exact sum once. */
  lemma WrapAdd(a: int, b: int)
    ensures Wrap(Wrap(a) + b) == Wrap(a + b)
  {
    var w, wa := Wrap(a + b), Wrap(a);
    DiffOfMultiples(w - (a + b), wa - a);
    assert w - (wa + b) == (w - (a + b)) - (wa - a);
    WrapUnique(wa + b, w);
  }

  /** Math.addExact: None stands for the ArithmeticException thrown on overflow. */
  function AddExact(a: Int32, b: Int32): (r: Option<Int32>)
    ensures r.Some? <==> InRange(a + b)
    ensures r.Some? ==> r.value == a + b
  {
    if InRange(a + b) then Some(a + b) else None
  }

  predicate IsDigit(c: char) {
    '0' <= c <= '9'
  }

  predicate AllDigits(s: string) {
    forall i :: 0 <= i < |s| ==> IsDigit(s[i])
  }

  function DigitValue(c: char): (d: nat)
    requires IsDigit(c)
    ensures d < 10
  {
    c as int - '0' as int
  }

  function DigitChar(d: nat): (c: char)
    requires d < 10
    ensures IsDigit(c) && DigitValue(c) == d
  {
    ('0' as int + d) as char
  }

  /** The value of a run of decimal digits, most significant digit first. */
  function DigitsValue(s: string): nat
    requires AllDigits(s)
  {
    if s == [] then 0 else 10 * DigitsValue(s[..|s| - 1]) + DigitValue(s[|s| - 1])
  }

  /** The decimal digits of n, without leading zeros. */
  function NatToString(n: nat): (s: string)
    ensures |s| > 0 && AllDigits(s)
    ensures n >= 10 ==> s[0] != '0'
  {
    if n < 10 then [DigitChar(n)] else NatToString(n / 10) + [DigitChar(n % 10)]
  }

  /** What Integer.toString produces: an optional minus sign, then digits. */
  predicate IsNumeral(s: string) {
    || (|s| > 0 && AllDigits(s))
    || (|s| > 1 && s[0] == '-' && AllDigits(s[1..]))
  }

  /** Integer.toString(n), and so `n + ""`. */
  function ToString(n: int): (s: string)
    ensures IsNumeral(s)
  {
    if n < 0 then "-" + NatToString(-n) else NatToString(n)
  }

  /** The strings Integer.parseInt reads: an optional '+' or '-', then at
      least one digit. */
  predicate IsSignedDigits(s: string) {
    |s| > 0 && if s[0] == '-' || s[0] == '+' then |s| > 1 && AllDigits(s[1..]) else AllDigits(s)
  }

  /** The value such a string denotes, before any range check. */
  function SignedDigitsValue(s: string): int
    requires IsSignedDigits(s)
  {
    if s[0] == '-' then -(DigitsValue(s[1..]) as int)
    else if s[0] == '+' then DigitsValue(s[1..])
    else DigitsValue(s)
  }

  /** Integer.parseInt(s) (radix 10). None stands for the
      NumberFormatException thrown otherwise. */
  function ParseInt(s: string): (r: Option<Int32>)
    ensures r.Some? ==> IsSignedDigits(s)
  {
    if |s| == 0 then None
    else
      var negative := s[0] == '-';
      var digits := if s[0] == '-' || s[0] == '+' then s[1..] else s;
      if |digits| == 0 || !AllDigits(digits) then None
      else
        var magnitude: int := DigitsValue(digits);
        var v := if negative then -magnitude else magnitude;
        if InRange(v) then Some(v) else None
  }

  /** Integer.parseInt succeeds exactly on an optional sign and digits whose
      signed value fits an `int`, and returns that value. */
  lemma ParseIntExactly(s: string)
    ensures ParseInt(s).Some? <==> IsSignedDigits(s) && InRange(SignedDigitsValue(s))
    ensures ParseInt(s).Some? ==> ParseInt(s).value == SignedDigitsValue(s)
  {
  }

  /** A leading zero does not change a digit string's value. */
  lemma {:induction false} LeadingZeroValue(d: string)
    requires AllDigits(d)
    ensures AllDigits("0" + d) && DigitsValue("0" + d) == DigitsValue(d)
  {
    assert AllDigits("0" + d) by {
      forall i | 0 <= i < |"0" + d|
        ensures IsDigit(("0" + d)[i])
      {
        if i > 0 {
          assert ("0" + d)[i] == d[i - 1];
        }
      }
    }
    if d != [] {
      var init := d[..|d| - 1];
      assert ("0" + d)[..|d|] == "0" + init;
      LeadingZeroValue(init);
    }
  }

  /** Integer.parseInt ignores a '+' sign and leading zeros before digits:
      "+7", "007" and "7" all parse to 7. */
  lemma ParseIntIgnoresPlusAndZero(d: string)
    requires |d| > 0 && AllDigits(d)
    ensures ParseInt("+" + d) == ParseInt(d)
    ensures ParseInt("0" + d) == ParseInt(d)
  {
    LeadingZeroValue(d);
    assert ("+" + d)[1..] == d;
    ParseIntExactly(d);
    ParseIntExactly("+" + d);
    ParseIntExactly("0" + d);
  }

  lemma {:induction false} DigitsValueOfNatToString(n: nat)
    ensures DigitsValue(NatToString(n)) == n
  {
    if n >= 10 {
      var p := NatToString(n / 10);
      var s := p + [DigitChar(n % 10)];
      assert s[..|s| - 1] == p;
      DigitsValueOfNatToString(n / 10);
    }
  }

  /** Printing then parsing gives the number back exactly when it fits an
      `int`; out-of-range numerals are rejected. */
  lemma ParseIntOfToString(n: int)
    ensures ParseInt(ToString(n)) == if InRange(n) then Some(n) else None
  {
    var s := ToString(n);
    var m: nat := if n < 0 then -n else n;
    var d := NatToString(m);
    DigitsValueOfNatToString(m);
    assert IsDigit(d[0]);
    if n < 0 {
      assert s[0] == '-' && s[1..] == d;
    } else {
      assert s == d;
    }
  }

  /** Distinct numbers print differently. */
  lemma ToStringInjective(m: int, n: int)
    requires ToString(m) == ToString(n)
    ensures m == n
  {
    DigitsValueOfNatToString(if m < 0 then -m else m);
    DigitsValueOfNatToString(if n < 0 then -n else n);
    var s := ToString(m);
    if m < 0 {
      assert s[1..] == NatToString(-m);
    }
    if n < 0 {
      assert s[1..] == NatToString(-n);
    }
  }
}
