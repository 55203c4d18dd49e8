/** The few C library string routines the core relies on: `strstr` for classifying
    tags and symbols, `strtol` for reading integers and `%li` for printing them. */
module Text {
  import opened Tokens

  /** `strstr(hay, needle) != NULL`: `needle` occurs somewhere in `hay`. */
  predicate Contains(hay: string, needle: string)
    decreases |hay|
  {
    needle <= hay || (hay != [] && Contains(hay[1..], needle))
  }

  lemma {:induction false} ContainsIff(hay: string, needle: string)
    ensures Contains(hay, needle) <==> exists i :: 0 <= i <= |hay| && needle <= hay[i..]
  {
    if needle <= hay {
      assert needle <= hay[0..];
    } else if hay == [] {
    } else {
      ContainsIff(hay[1..], needle);
      if exists i :: 0 <= i <= |hay| && needle <= hay[i..] {
        var i :| 0 <= i <= |hay| && needle <= hay[i..];
        assert i != 0;
        assert hay[1..][i - 1..] == hay[i..];
      }
      if Contains(hay[1..], needle) {
        var i :| 0 <= i <= |hay[1..]| && needle <= hay[1..][i..];
        assert hay[1..][i..] == hay[i + 1..];
      }
    }
  }

  /** C `isspace` in the "C" locale. */
  predicate IsSpace(c: char) {
    c == ' ' || c == '\t' || c == '\n' || c == '\U{0B}' || c == '\U{0C}' || c == '\r'
  }

  predicate IsDigit(c: char) {
    '0' <= c <= '9'
  }

  predicate AllDigits(s: string) {
    forall i :: 0 <= i < |s| ==> IsDigit(s[i])
  }

  function DigitValue(c: char): (d: nat)
    requires IsDigit(c)
    ensures d < 10
  {
    (c as int) - ('0' as int)
  }

  function DigitChar(d: nat): (c: char)
    requires d < 10
    ensures IsDigit(c) && DigitValue(c) == d
  {
    (('0' as int) + d) as char
  }

  /** The input with its leading white space removed. */
  function SkipSpace(s: string): (r: string)
    ensures |r| <= |s| && r == s[|s| - |r|..]
    ensures r != [] ==> !IsSpace(r[0])
  {
    if s != [] && IsSpace(s[0]) then SkipSpace(s[1..]) else s
  }

  /** Length of the longest prefix of `s` made of decimal digits. */
  function DigitRun(s: string): (n: nat)
    ensures n <= |s| && AllDigits(s[..n])
    ensures n < |s| ==> !IsDigit(s[n])
  {
    if s != [] && IsDigit(s[0]) then
      var n := 1 + DigitRun(s[1..]);
      assert s[..n] == [s[0]] + s[1..][..n - 1];
      n
    else 0
  }

  /** The value of a string of decimal digits, most significant first. */
  function DigitsValue(s: string): nat
    requires AllDigits(s)
  {
    if s == [] then 0 else DigitsValue(s[..|s| - 1]) * 10 + DigitValue(s[|s| - 1])
  }

  /** The integer that the text `s` denotes for `strtol` in base 10: leading white
      space, an optional sign, then the longest run of digits (none gives 0). */
  function DenotedValue(s: string): int {
    var t := SkipSpace(s);
    var neg := t != [] && t[0] == '-';
    var u := if t != [] && (t[0] == '-' || t[0] == '+') then t[1..] else t;
    var m: int := DigitsValue(u[..DigitRun(u)]);
    if neg then -m else m
  }

  /** `strtol(s, NULL, 10)`: the value returned, and whether `errno` became ERANGE.
      ERANGE is set exactly when the denoted number lies outside the range of `long`,
      and the value is then clamped to LONG_MIN or LONG_MAX by its sign. */
  function StrToL(s: string): (r: (int, bool))
    ensures InLongRange(r.0)
    ensures r.1 <==> !InLongRange(DenotedValue(s))
    ensures !r.1 ==> r.0 == DenotedValue(s)
    ensures r.1 ==> r.0 == (if DenotedValue(s) < 0 then LongMin else LongMax)
  {
    var v := DenotedValue(s);
    if InLongRange(v) then (v, false)
    else if v < 0 then (LongMin, true)
    else (LongMax, true)
  }

  /** The magnitude part of `printf("%li")`: the decimal digits of a non-negative
      value, without leading zeros. */
  function NatToDecimal(n: nat): (s: string)
    ensures s != [] && AllDigits(s)
    ensures DigitsValue(s) == n
    ensures |s| > 1 ==> s[0] != '0'
  {
    if n < 10 then
      var s := [DigitChar(n)];
      assert s[..0] == [];
      s
    else
      var p := NatToDecimal(n / 10);
      var c := DigitChar(n % 10);
      var s := p + [c];
      assert s[..|s| - 1] == p && s[|s| - 1] == c && s[0] == p[0];
      assert DigitsValue(s) == DigitsValue(p) * 10 + n % 10;
      assert (n / 10) * 10 + n % 10 == n;
      assert |p| == 1 ==> p[0] != '0' by {
        if |p| == 1 {
          assert DigitsValue(p) == DigitsValue(p[..0]) * 10 + DigitValue(p[0]);
        }
      }
      s
  }

  /** `printf("%li", n)`: a minus sign exactly for a negative value, then the digits of
      its magnitude. */
  function IntToDecimal(n: int): (s: string)
    ensures s != []
    ensures s[0] == '-' <==> n < 0
    ensures var d := if n < 0 then s[1..] else s;
      d != [] && AllDigits(d) && DigitsValue(d) == (if n < 0 then -n else n)
  {
    if n < 0 then "-" + NatToDecimal(-n) else NatToDecimal(n)
  }

  lemma {:induction false} DigitRunAll(s: string)
    requires AllDigits(s)
    ensures DigitRun(s) == |s|
  {
    if s != [] {
      DigitRunAll(s[1..]);
    }
  }

  /** Reading back what `%li` printed gives the same `long`: the printer and the
      integer reader are inverse on the whole range of `long`. */
  lemma StrToLOfDecimal(n: int)
    requires InLongRange(n)
    ensures StrToL(IntToDecimal(n)) == (n, false)
  {
    DecimalDenotes(n);
  }

  /** The text `%li` prints denotes the printed value. */
  lemma DecimalDenotes(n: int)
    ensures DenotedValue(IntToDecimal(n)) == n
  {
    var s := IntToDecimal(n);
    var d := if n < 0 then s[1..] else s;
    if n < 0 {
      assert s == "-" + d;
    }
    SignedDigits(s, d, n < 0);
  }

  /** Text made of an optional minus and a non-empty run of digits denotes the value of
      the digits, negated after the minus. */
  lemma SignedDigits(s: string, d: string, neg: bool)
    requires d != [] && AllDigits(d) && s == (if neg then "-" + d else d)
    ensures DenotedValue(s) == (if neg then -(DigitsValue(d) as int) else DigitsValue(d))
  {
    assert IsDigit(d[0]);
    assert SkipSpace(s) == s;
    var u := if s[0] == '-' || s[0] == '+' then s[1..] else s;
    assert u == d;
    DigitRunAll(d);
    assert d[..DigitRun(d)] == d;
  }

}
