/**
 The two Python number conversions the normaliser relies on, over exact reals:
 `float(s)` on a decimal string and the built-in `round(x)`.

 `float(s)` is modelled on a restricted decimal grammar: an optional `+` or
 `-`, then digits with at most one `.`, and at least one digit (`"3"`,
 `"3.5"`, `"3."`, `".5"`, `"-0.25"`). Every other string is refused, where
 Python raises `ValueError`. Python also accepts exponents, `inf`/`nan`,
 surrounding white space and `_` separators; those are not modelled (the
 model refuses them). Binary floating point rounding is not modelled either:
 the value is the exact decimal value.
 */
module PyFloat {
  import opened Json

  predicate IsDigit(c: char)
  {
    '0' <= c <= '9'
  }

  predicate AllDigits(s: string)
  {
    forall i :: 0 <= i < |s| ==> IsDigit(s[i])
  }

  function DigitValue(c: char): (d: nat)
    requires IsDigit(c)
    ensures d < 10
  {
    c as int - '0' as int
  }

  function DigitChar(d: nat): (c: char)
    requires d < 10
    ensures IsDigit(c) && DigitValue(c) == d
  {
    ('0' as int + d) as char
  }

  /** The value of a string of decimal digits, most significant first. */
  function DigitsValue(s: string): nat
    requires AllDigits(s)
  {
    if s == [] then 0 else 10 * DigitsValue(s[..|s| - 1]) + DigitValue(s[|s| - 1])
  }

  function Pow10(n: nat): (p: nat)
    ensures p >= 1
  {
    if n == 0 then 1 else 10 * Pow10(n - 1)
  }

  /** The position of the first `.` in `t`, or `|t|` when there is none. */
  function IndexOfDot(t: string): (i: nat)
    ensures i <= |t|
    ensures '.' !in t[..i]
    ensures i < |t| ==> t[i] == '.'
  {
    if t == [] then 0
    else if t[0] == '.' then 0
    else
      var j := IndexOfDot(t[1..]);
      assert t[..j + 1] == [t[0]] + t[1..][..j];
      j + 1
  }

  /** `float` on a string without sign: integer digits, then optionally a `.` and fraction digits. */
  function ParseUnsigned(t: string): Option<real>
  {
    var i := IndexOfDot(t);
    var a := t[..i];
    var b := if i < |t| then t[i + 1..] else "";
    if AllDigits(a) && AllDigits(b) && |a| + |b| > 0 then
      Some(DecimalValue(a, b))
    else
      None
  }

  /** The value of the numeral with integer digits `a` and fraction digits `b`. */
  function DecimalValue(a: string, b: string): real
    requires AllDigits(a) && AllDigits(b)
  {
    DigitsValue(a) as real + DigitsValue(b) as real / Pow10(|b|) as real
  }

  /** `float(s)` on the grammar above; `None` where Python raises `ValueError`. */
  function ParseFloat(s: string): Option<real>
  {
    if |s| > 0 && s[0] == '-' then
      match ParseUnsigned(s[1..])
      case Some(x) => Some(-x)
      case None => None
    else if |s| > 0 && s[0] == '+' then
      ParseUnsigned(s[1..])
    else
      ParseUnsigned(s)
  }

  /** The string without its one optional leading sign. */
  function Unsigned(s: string): string
  {
    if |s| > 0 && (s[0] == '-' || s[0] == '+') then s[1..] else s
  }

  /**
   The grammar, stated independently of the parser: after the optional sign,
   only digits and dots, at most one dot, and at least one digit.
   */
  predicate IsNumeral(s: string)
  {
    IsUnsignedNumeral(Unsigned(s))
  }

  /** The grammar without the sign: digits and dots only, at most one dot, some digit. */
  predicate IsUnsignedNumeral(t: string)
  {
    (forall k :: 0 <= k < |t| ==> IsDigit(t[k]) || t[k] == '.')
    && multiset(t)['.'] <= 1
    && exists k :: 0 <= k < |t| && IsDigit(t[k])
  }

  /** `t` split at its first dot: `t == t[..i] + "." + rest`, or `t` itself when it has none. */
  lemma DotSplit(t: string)
    ensures var i := IndexOfDot(t);
      && multiset(t[..i])['.'] == 0
      && (i < |t| ==> multiset(t)['.'] == 1 + multiset(t[i + 1..])['.'])
      && (i == |t| ==> multiset(t)['.'] == 0)
  {
    var i := IndexOfDot(t);
    if i < |t| {
      assert t == t[..i] + [t[i]] + t[i + 1..];
      assert multiset(t) == multiset(t[..i]) + multiset{'.'} + multiset(t[i + 1..]);
    } else {
      assert t == t[..i];
    }
  }

  lemma ParseUnsignedSound(t: string)
    requires ParseUnsigned(t).Some?
    ensures IsUnsignedNumeral(t)
  {
    var i := IndexOfDot(t);
    var b := if i < |t| then t[i + 1..] else "";
    SoundChars(t, i, t[..i], b);
    DotSplit(t);
    assert multiset(b)['.'] == 0;
    SoundDigit(t, i, t[..i], b);
  }

  lemma SoundChars(t: string, i: nat, a: string, b: string)
    requires i <= |t| && (i < |t| ==> t[i] == '.')
    requires a == t[..i] && b == (if i < |t| then t[i + 1..] else "")
    requires AllDigits(a) && AllDigits(b)
    ensures forall k :: 0 <= k < |t| ==> IsDigit(t[k]) || t[k] == '.'
  {
    forall k | 0 <= k < |t| ensures IsDigit(t[k]) || t[k] == '.' {
      if k < i { assert t[k] == a[k]; }
      else if k > i { assert t[k] == b[k - i - 1]; }
    }
  }

  lemma SoundDigit(t: string, i: nat, a: string, b: string)
    requires i <= |t|
    requires a == t[..i] && b == (if i < |t| then t[i + 1..] else "")
    requires AllDigits(a) && AllDigits(b) && |a| + |b| > 0
    ensures exists k :: 0 <= k < |t| && IsDigit(t[k])
  {
    if |a| > 0 {
      assert t[0] == a[0];
    } else {
      assert t[i + 1] == b[0];
    }
  }

  lemma ParseUnsignedComplete(t: string)
    requires IsUnsignedNumeral(t)
    ensures ParseUnsigned(t).Some?
  {
    var i := IndexOfDot(t);
    var a := t[..i];
    var b := if i < |t| then t[i + 1..] else "";
    DotSplit(t);
    assert AllDigits(a) by {
      forall k | 0 <= k < |a| ensures IsDigit(a[k]) {
        assert a[k] == t[k];
      }
    }
    assert multiset(b)['.'] == 0;
    assert AllDigits(b) by {
      forall k | 0 <= k < |b| ensures IsDigit(b[k]) {
        assert b[k] == t[i + 1 + k];
        assert b[k] in multiset(b);
      }
    }
    var p :| 0 <= p < |t| && IsDigit(t[p]);
    assert p != i;
  }

  lemma ParseUnsignedDefined(t: string)
    ensures ParseUnsigned(t).Some? <==> IsUnsignedNumeral(t)
  {
    if ParseUnsigned(t).Some? {
      ParseUnsignedSound(t);
    }
    if IsUnsignedNumeral(t) {
      ParseUnsignedComplete(t);
    }
  }

  /** `float(s)` succeeds exactly on the strings of the grammar. */
  lemma ParseFloatDefined(s: string)
    ensures ParseFloat(s).Some? <==> IsNumeral(s)
  {
    ParseUnsignedDefined(Unsigned(s));
  }

  /** Digits with one dot in between read as integer part plus fraction. */
  lemma ParseFloatDecimal(a: string, b: string)
    requires AllDigits(a) && AllDigits(b) && |a| + |b| > 0
    ensures ParseFloat(a + "." + b) == Some(DecimalValue(a, b))
  {
    var t := a + "." + b;
    IndexOfDotDigits(a, "." + b);
    assert t == a + ("." + b);
    assert t[..|a|] == a;
    assert t[|a| + 1..] == b;
    assert t[0] != '-' && t[0] != '+' by {
      if |a| > 0 { assert t[0] == a[0]; } else { assert t[0] == '.'; }
    }
    assert ParseFloat(t) == ParseUnsigned(t);
  }

  /** A string of digits alone reads as its integer value. */
  lemma ParseFloatInteger(a: string)
    requires AllDigits(a) && |a| > 0
    ensures ParseFloat(a) == Some(DigitsValue(a) as real)
  {
    IndexOfDotDigits(a, "");
    assert a + "" == a;
    assert IndexOfDot(a) == |a|;
    assert a[..|a|] == a;
    assert IsDigit(a[0]);
    assert DecimalValue(a, "") == DigitsValue(a) as real by {
      assert DigitsValue("") == 0 && Pow10(0) == 1;
    }
    assert ParseUnsigned(a) == Some(DecimalValue(a, ""));
    assert ParseFloat(a) == ParseUnsigned(a);
  }

  /** A leading minus sign negates the value and success does not change. */
  lemma ParseFloatNegative(t: string)
    requires t == [] || (t[0] != '-' && t[0] != '+')
    ensures ParseFloat("-" + t) == (match ParseFloat(t) case Some(x) => Some(-x) case None => None)
  {
    assert ("-" + t)[1..] == t;
  }

  lemma {:induction false} IndexOfDotDigits(a: string, rest: string)
    requires AllDigits(a)
    requires rest == [] || rest[0] == '.'
    ensures IndexOfDot(a + rest) == |a|
  {
    if a != [] {
      assert (a + rest)[1..] == a[1..] + rest;
      assert IsDigit(a[0]);
      IndexOfDotDigits(a[1..], rest);
    } else {
      assert a + rest == rest;
    }
  }

  /** Python `str(n)` for a non-negative integer: its decimal digits, no leading zero. */
  function NatToDigits(n: nat): (s: string)
    ensures |s| > 0 && AllDigits(s)
    ensures DigitsValue(s) == n
    ensures |s| > 1 ==> s[0] != '0'
    decreases n
  {
    if n < 10 then [DigitChar(n)]
    else
      var s := NatToDigits(n / 10) + [DigitChar(n % 10)];
      assert s[..|s| - 1] == NatToDigits(n / 10);
      s
  }

  /** `float(str(n)) == n` for every non-negative integer. */
  lemma ParseFloatNat(n: nat)
    ensures ParseFloat(NatToDigits(n)) == Some(n as real)
  {
    ParseFloatInteger(NatToDigits(n));
  }

  /**
   Python 3's built-in `round(x)`: the nearest integer, ties to the even one.
   */
  function RoundHalfEven(x: real): (n: int)
    ensures -0.5 <= n as real - x <= 0.5
    ensures (n as real - x == 0.5 || x - n as real == 0.5) ==> n % 2 == 0
  {
    var f := x.Floor;
    var d := x - f as real;
    if d < 0.5 then f
    else if d > 0.5 then f + 1
    else if f % 2 == 0 then f
    else f + 1
  }

  /** The two properties of `RoundHalfEven` determine it: no other integer has both. */
  lemma RoundHalfEvenUnique(x: real, m: int)
    requires -0.5 <= m as real - x <= 0.5
    requires (m as real - x == 0.5 || x - m as real == 0.5) ==> m % 2 == 0
    ensures m == RoundHalfEven(x)
  {
  }
}
