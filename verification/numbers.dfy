/**
 * Python 2's `int(s)` on an argument string, and the `%i` formatting the
 * handler uses to name a document id in its messages.
 */
module Numbers {
  import opened Wrappers

  predicate IsDigit(c: char) { '0' <= c <= '9' }

  /** The ASCII whitespace `int()` ignores around a number. */
  predicate IsSpace(c: char) { c == ' ' || '\t' <= c <= '\r' }

  /** One or more decimal digits and nothing else. */
  predicate IsDecimal(s: string) { |s| > 0 && forall i :: 0 <= i < |s| ==> IsDigit(s[i]) }

  /** The value of a string of decimal digits, most significant first. */
  function DigitsValue(s: string): (n: nat)
    requires forall i :: 0 <= i < |s| ==> IsDigit(s[i])
  {
    if s == [] then 0
    else
      assert IsDigit(s[|s| - 1]);
      DigitsValue(s[..|s| - 1]) * 10 + (s[|s| - 1] as int - '0' as int)
  }

  /** Drops leading whitespace; what is left is a suffix of the input. */
  function TrimStart(s: string): (r: string)
    ensures |r| <= |s| && r == s[|s| - |r|..]
    ensures r != [] ==> !IsSpace(r[0])
  {
    if s != [] && IsSpace(s[0]) then TrimStart(s[1..]) else s
  }

  /** Drops trailing whitespace; what is left is a prefix of the input. */
  function TrimEnd(s: string): (r: string)
    ensures |r| <= |s| && r == s[..|r|]
    ensures r != [] ==> !IsSpace(r[|r| - 1])
  {
    if s != [] && IsSpace(s[|s| - 1]) then TrimEnd(s[..|s| - 1]) else s
  }

  /** `s.strip()`: a slice of the input with no whitespace at either end. */
  function Strip(s: string): (r: string)
  {
    TrimEnd(TrimStart(s))
  }

  /** The characters `strip()` keeps all come from its argument. */
  lemma StripKeeps(s: string)
    ensures forall c :: c in Strip(s) ==> c in s
  {
    var start := |s| - |TrimStart(s)|;
    assert Strip(s) == s[start..start + |Strip(s)|];
  }

  /**
   * An integer literal with no whitespace around it: an optional sign and one
   * or more decimal digits; `None` for anything else. An accepted literal
   * ends in a digit.
   */
  function ParseLiteral(t: string): (r: Option<int>)
    ensures r.Some? ==> |t| > 0 && IsDigit(t[|t| - 1])
  {
    if |t| > 0 && (t[0] == '+' || t[0] == '-') then
      var digits := t[1..];
      if IsDecimal(digits) then
        assert t[|t| - 1] == digits[|digits| - 1];
        var magnitude: int := DigitsValue(digits);
        Some(if t[0] == '-' then -magnitude else magnitude)
      else None
    else if IsDecimal(t) then Some(DigitsValue(t))
    else None
  }

  /**
   * `int(s)`: an integer literal with whitespace allowed around it; `None`
   * where Python raises `ValueError`. No number is read from a string
   * without a digit in it.
   */
  function ParseInt(s: string): (r: Option<int>)
    ensures r.Some? ==> exists i :: 0 <= i < |s| && IsDigit(s[i])
  {
    var t := Strip(s);
    StripKeeps(s);
    var r := ParseLiteral(t);
    assert r.Some? ==> t[|t| - 1] in s;
    r
  }

  /** The character of one decimal digit. */
  function DigitChar(d: nat): (c: char)
    requires d < 10
    ensures IsDigit(c) && c as int - '0' as int == d
  {
    ('0' as int + d) as char
  }

  /**
   * The decimal form of a natural number: digits only, no leading zero,
   * and reading it back gives the number.
   */
  function ShowNat(n: nat): (r: string)
    ensures IsDecimal(r) && DigitsValue(r) == n
    ensures r[0] == '0' ==> n == 0
  {
    if n < 10 then [DigitChar(n)]
    else
      var prefix := ShowNat(n / 10);
      var r := prefix + [DigitChar(n % 10)];
      assert r[..|r| - 1] == prefix;
      r
  }

  /** `"%i" % n`: the decimal form of an integer, with '-' for negatives. */
  function Show(n: int): (r: string)
    ensures |r| > 0 && (r[0] == '-' <==> n < 0)
    ensures r == (if n < 0 then "-" else "") + ShowNat(if n < 0 then -n else n)
  {
    if n < 0 then "-" + ShowNat(-n) else ShowNat(n)
  }

  /** A string with no whitespace at either end is left alone by `strip()`. */
  lemma StripUnspaced(s: string)
    requires s != [] && !IsSpace(s[0]) && !IsSpace(s[|s| - 1])
    ensures Strip(s) == s
  {
    assert TrimStart(s) == s;
    assert TrimEnd(s) == s;
  }

  /** `int("%i" % n) == n`: the formatted id parses back to the same id. */
  lemma ParseShow(n: int)
    ensures ParseInt(Show(n)) == Some(n)
  {
    ShowIsLiteral(n);
    ParseIntIsLiteral(Show(n), Show(n));
  }

  /** The formatted integer has no whitespace to strip and reads as a literal. */
  lemma ShowIsLiteral(n: int)
    ensures Strip(Show(n)) == Show(n)
    ensures ParseLiteral(Show(n)) == Some(n)
  {
    var s := Show(n);
    if n < 0 {
      var digits := ShowNat(-n);
      LiteralOfSignedDigits("-", digits);
      assert s == "-" + digits;
      assert s[|s| - 1] == digits[|digits| - 1];
      StripUnspaced(s);
    } else {
      var digits := ShowNat(n);
      LiteralOfSignedDigits("", digits);
      assert s == "" + digits;
      assert IsDigit(s[0]) && IsDigit(s[|s| - 1]);
      StripUnspaced(s);
    }
  }

  /** Distinct ids are formatted differently, so a message names exactly one id. */
  lemma ShowInjective(a: int, b: int)
    ensures Show(a) == Show(b) ==> a == b
  {
    ParseShow(a);
    ParseShow(b);
  }

  /** `k` zero digits. */
  function Zeros(k: nat): (r: string)
    ensures |r| == k && forall i :: 0 <= i < k ==> r[i] == '0'
  {
    seq(k, i => '0')
  }

  /** Zeros in front of a digit string do not change its value. */
  lemma {:induction false} LeadingZeros(k: nat, d: string)
    requires forall i :: 0 <= i < |d| ==> IsDigit(d[i])
    ensures forall i :: 0 <= i < |Zeros(k) + d| ==> IsDigit((Zeros(k) + d)[i])
    ensures DigitsValue(Zeros(k) + d) == DigitsValue(d)
  {
    var z := Zeros(k) + d;
    assert forall i :: 0 <= i < |z| ==> IsDigit(z[i]);
    if d == [] {
      if k > 0 {
        LeadingZeros(k - 1, d);
        assert z[..|z| - 1] == Zeros(k - 1) + d;
      }
    } else {
      var p := d[..|d| - 1];
      LeadingZeros(k, p);
      assert z[..|z| - 1] == Zeros(k) + p;
      assert z[|z| - 1] == d[|d| - 1];
    }
  }

  /** A digit string that does not start with '0' has a positive value. */
  lemma {:induction false} LeadingNonzeroIsPositive(d: string)
    requires IsDecimal(d) && d[0] != '0'
    ensures DigitsValue(d) > 0
  {
    if |d| > 1 {
      var p := d[..|d| - 1];
      assert p[0] == d[0];
      LeadingNonzeroIsPositive(p);
    } else {
      assert d[..0] == [];
    }
  }

  /** A digit string with no leading zero is the decimal form of its value. */
  lemma {:induction false} CanonicalDigits(d: string)
    requires IsDecimal(d) && (|d| == 1 || d[0] != '0')
    ensures ShowNat(DigitsValue(d)) == d
  {
    var v := DigitsValue(d);
    var last := d[|d| - 1];
    var x := last as int - '0' as int;
    assert IsDigit(last);
    if |d| == 1 {
      assert d[..0] == [];
      assert DigitsValue(d[..0]) == 0;
      assert v == x;
      assert DigitChar(x) == last;
      assert d == [last];
    } else {
      var p := d[..|d| - 1];
      assert p[0] == d[0];
      CanonicalDigits(p);
      LeadingNonzeroIsPositive(p);
      assert v == DigitsValue(p) * 10 + x;
      assert v / 10 == DigitsValue(p) && v % 10 == x;
      assert DigitChar(x) == last;
      assert d == p + [last];
    }
  }

  /** Every digit string is some zeros followed by the decimal form of its value. */
  lemma {:induction false} DecimalForm(d: string)
    requires IsDecimal(d)
    ensures |ShowNat(DigitsValue(d))| <= |d|
    ensures d == Zeros(|d| - |ShowNat(DigitsValue(d))|) + ShowNat(DigitsValue(d))
  {
    if |d| == 1 || d[0] != '0' {
      CanonicalDigits(d);
      assert Zeros(0) + d == d;
    } else {
      var rest := d[1..];
      assert d == Zeros(1) + rest;
      LeadingZeros(1, rest);
      DecimalForm(rest);
      var shown := ShowNat(DigitsValue(rest));
      ZerosMore(|rest| - |shown|, shown);
    }
  }

  /** One more zero in front. */
  lemma ZerosMore(j: nat, x: string)
    ensures Zeros(1) + (Zeros(j) + x) == Zeros(j + 1) + x
  {
    assert Zeros(1) + Zeros(j) == Zeros(j + 1);
  }

  /** The sign a literal starts with: "+", "-" or none. */
  function SignOf(t: string): (sign: string)
    ensures sign == "" || sign == "+" || sign == "-"
    ensures |sign| <= |t| && sign == t[..|sign|]
  {
    if |t| > 0 && (t[0] == '+' || t[0] == '-') then t[..1] else ""
  }

  /** An accepted literal is its sign followed by digits, read as the signed digit value. */
  lemma LiteralParts(t: string, n: int)
    requires ParseLiteral(t) == Some(n)
    ensures IsDecimal(t[|SignOf(t)|..]) && t == SignOf(t) + t[|SignOf(t)|..]
    ensures n == if SignOf(t) == "-" then -(DigitsValue(t[|SignOf(t)|..]) as int)
                 else DigitsValue(t[|SignOf(t)|..])
  {
  }

  /** A sign and digits, read as the signed digit value, are a sign, zeros and a decimal form. */
  lemma SignedDigitsForm(sign: string, digits: string, n: int)
    requires sign == "" || sign == "+" || sign == "-"
    requires IsDecimal(digits)
    requires n == if sign == "-" then -(DigitsValue(digits) as int) else DigitsValue(digits)
    ensures var t, magnitude := sign + digits, ShowNat(if n < 0 then -n else n);
            && |sign| + |magnitude| <= |t|
            && t == sign + Zeros(|t| - |sign| - |magnitude|) + magnitude
            && (n < 0 ==> sign == "-")
            && (sign == "-" ==> n <= 0)
  {
    var v := DigitsValue(digits);
    assert (if n < 0 then -n else n) == v;
    DecimalForm(digits);
  }

  /**
   * What a literal reads as: an optional sign, then zeros, then the decimal
   * form of the value's magnitude.
   */
  lemma LiteralForm(t: string, n: int)
    requires ParseLiteral(t) == Some(n)
    ensures var sign, magnitude := SignOf(t), ShowNat(if n < 0 then -n else n);
            && |sign| + |magnitude| <= |t|
            && t == sign + Zeros(|t| - |sign| - |magnitude|) + magnitude
            && (n < 0 ==> sign == "-")
            && (sign == "-" ==> n <= 0)
  {
    LiteralParts(t, n);
    SignedDigitsForm(SignOf(t), t[|SignOf(t)|..], n);
  }

  /** `int(s)` reads the stripped argument as a literal. */
  lemma ParseIntIsLiteral(s: string, t: string)
    requires Strip(s) == t
    ensures ParseInt(s) == ParseLiteral(t)
  {
  }

  /**
   * What `int()` accepts, and what it reads: the stripped argument is an
   * optional sign, then zeros, then the decimal form of the value's
   * magnitude; a '-' sign goes with a value that is not positive, and only
   * it gives a negative one. So "1.5", "12abc" or "1 2" are refused.
   */
  lemma ParseIntForm(s: string, n: int)
    requires ParseInt(s) == Some(n)
    ensures var t, sign, magnitude := Strip(s), SignOf(Strip(s)), ShowNat(if n < 0 then -n else n);
            && |sign| + |magnitude| <= |t|
            && t == sign + Zeros(|t| - |sign| - |magnitude|) + magnitude
            && (n < 0 ==> sign == "-")
            && (sign == "-" ==> n <= 0)
  {
    ParseIntIsLiteral(s, Strip(s));
    LiteralForm(Strip(s), n);
  }

  /** Leading whitespace is skipped by `TrimStart`. */
  lemma {:induction false} TrimStartSkips(space: string, x: string)
    requires forall i :: 0 <= i < |space| ==> IsSpace(space[i])
    requires x != [] && !IsSpace(x[0])
    ensures TrimStart(space + x) == x
  {
    if space != [] {
      assert (space + x)[1..] == space[1..] + x;
      TrimStartSkips(space[1..], x);
    } else {
      assert space + x == x;
    }
  }

  /** Trailing whitespace is dropped by `TrimEnd`. */
  lemma {:induction false} TrimEndSkips(x: string, space: string)
    requires forall i :: 0 <= i < |space| ==> IsSpace(space[i])
    requires x != [] && !IsSpace(x[|x| - 1])
    ensures TrimEnd(x + space) == x
  {
    if space != [] {
      assert (x + space)[..|x + space| - 1] == x + space[..|space| - 1];
      TrimEndSkips(x, space[..|space| - 1]);
    } else {
      assert x + space == x;
    }
  }

  /** `strip()` removes exactly the whitespace around a core that starts and ends unspaced. */
  lemma StripPadding(before: string, core: string, after: string)
    requires forall i :: 0 <= i < |before| ==> IsSpace(before[i])
    requires forall i :: 0 <= i < |after| ==> IsSpace(after[i])
    requires core != [] && !IsSpace(core[0]) && !IsSpace(core[|core| - 1])
    ensures Strip(before + (core + after)) == core
  {
    var tail := core + after;
    assert tail[0] == core[0];
    TrimStartSkips(before, tail);
    TrimEndSkips(core, after);
  }

  /** A sign followed by digits reads as the signed digit value. */
  lemma LiteralOfSignedDigits(sign: string, digits: string)
    requires sign == "" || sign == "+" || sign == "-"
    requires IsDecimal(digits)
    ensures ParseLiteral(sign + digits)
         == Some(if sign == "-" then -(DigitsValue(digits) as int) else DigitsValue(digits) as int)
  {
    var t := sign + digits;
    assert t[|sign|..] == digits;
    if sign == "" {
      assert t == digits;
      assert IsDigit(t[0]);
    }
  }

  /** A sign, zeros and a decimal form read as the signed value. */
  lemma ParseSignedZeros(sign: string, k: nat, m: nat)
    requires sign == "" || sign == "+" || sign == "-"
    ensures var core := sign + (Zeros(k) + ShowNat(m));
            && core != [] && !IsSpace(core[0]) && !IsSpace(core[|core| - 1])
            && ParseLiteral(core) == Some(if sign == "-" then -(m as int) else m as int)
  {
    var digits := Zeros(k) + ShowNat(m);
    LeadingZeros(k, ShowNat(m));
    LiteralOfSignedDigits(sign, digits);
    var core := sign + digits;
    assert core[|core| - 1] == digits[|digits| - 1];
    assert core[0] == '+' || core[0] == '-' || core[0] == digits[0];
  }

  /** Padding around a signed, zero-led numeral is what `strip()` removes. */
  lemma StripSignedZeros(before: string, sign: string, k: nat, m: nat, after: string)
    requires forall i :: 0 <= i < |before| ==> IsSpace(before[i])
    requires forall i :: 0 <= i < |after| ==> IsSpace(after[i])
    requires sign == "" || sign == "+" || sign == "-"
    ensures Strip(before + sign + Zeros(k) + ShowNat(m) + after) == sign + (Zeros(k) + ShowNat(m))
    ensures ParseLiteral(sign + (Zeros(k) + ShowNat(m))) == Some(if sign == "-" then -(m as int) else m as int)
  {
    var core := sign + (Zeros(k) + ShowNat(m));
    ParseSignedZeros(sign, k, m);
    StripPadding(before, core, after);
    Regroup(before, sign, Zeros(k), ShowNat(m), after);
  }

  /** Concatenation regrouped around its middle three parts. */
  lemma Regroup(a: string, b: string, c: string, d: string, e: string)
    ensures a + b + c + d + e == a + (b + (c + d) + e)
  {
  }

  /** `int(s)` reads whatever the literal left by `strip()` reads. */
  lemma ParseStripped(s: string, core: string, v: int)
    requires Strip(s) == core && ParseLiteral(core) == Some(v)
    ensures ParseInt(s) == Some(v)
  {
    ParseIntIsLiteral(s, core);
  }

  /**
   * Whitespace around the number, a '+' sign and zeros in front of the digits
   * do not change the value `int()` reads.
   */
  lemma ParsePadded(before: string, sign: string, k: nat, m: nat, after: string)
    requires forall i :: 0 <= i < |before| ==> IsSpace(before[i])
    requires forall i :: 0 <= i < |after| ==> IsSpace(after[i])
    requires sign == "" || sign == "+" || sign == "-"
    ensures ParseInt(before + sign + Zeros(k) + ShowNat(m) + after)
         == Some(if sign == "-" then -(m as int) else m as int)
  {
    StripSignedZeros(before, sign, k, m, after);
    ParseStripped(before + sign + Zeros(k) + ShowNat(m) + after, sign + (Zeros(k) + ShowNat(m)),
                  if sign == "-" then -(m as int) else m as int);
  }

  /** A literal with anything but a digit after its first character is refused. */
  lemma LiteralRefuses(t: string, i: int)
    requires 1 <= i < |t| && !IsDigit(t[i])
    ensures ParseLiteral(t) == None
  {
    if |t| > 0 && (t[0] == '+' || t[0] == '-') {
      assert t[1..][i - 1] == t[i];
    }
  }

  /**
   * `int(s)` fails when the stripped argument has anything but a digit after
   * its first character: a decimal point, a letter, inner whitespace.
   */
  lemma ParseIntRefuses(s: string, i: int)
    requires 1 <= i < |Strip(s)| && !IsDigit(Strip(s)[i])
    ensures ParseInt(s) == None
  {
    LiteralRefuses(Strip(s), i);
    ParseIntIsLiteral(s, Strip(s));
  }
}
