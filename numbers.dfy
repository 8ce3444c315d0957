/** Python's `int(text)` and `float(text)` on decimal text, the two ways
    the scripts turn a typed answer or a table cell into a number. */
module Numbers {
  import opened Common
  import opened Strings

  predicate IsDigit(c: char) {
    '0' <= c <= '9'
  }

  predicate AllDigits(s: string) {
    forall k :: 0 <= k < |s| ==> IsDigit(s[k])
  }

  /** The value of a run of decimal digits; the empty run is 0. */
  function DigitsValue(s: string): nat
    requires AllDigits(s)
    decreases |s|
  {
    if s == [] then 0
    else DigitsValue(s[..|s| - 1]) * 10 + (s[|s| - 1] as int - '0' as int)
  }

  function Pow10(n: nat): (p: nat)
    ensures p >= 1
  {
    if n == 0 then 1 else 10 * Pow10(n - 1)
  }

  /** The decimal digits of `n`, most significant first, without leading
      zeros. */
  function ShowNat(n: nat): (s: string)
    ensures |s| > 0 && AllDigits(s)
    decreases n
  {
    var d := [('0' as int + n % 10) as char];
    if n < 10 then d else ShowNat(n / 10) + d
  }

  /** `str(n)` for an integer. */
  function ShowInt(n: int): string {
    if n < 0 then "-" + ShowNat(-n) else ShowNat(n)
  }

  /** The text's sign, if it starts with one, and the rest of it. */
  function SplitSign(t: string): (bool, string) {
    if |t| > 0 && (t[0] == '+' || t[0] == '-') then (t[0] == '-', t[1..]) else (false, t)
  }

  /** `int(text)`: surrounding whitespace, an optional sign, then one or
      more decimal digits; anything else is refused (`None`, the
      `ValueError`). */
  function ParseInt(text: string): (r: Option<int>)
    ensures r.Some? ==> |Strip(text)| > 0
  {
    var (negative, digits) := SplitSign(Strip(text));
    if |digits| > 0 && AllDigits(digits) then
      var value: int := DigitsValue(digits);
      Some(if negative then -value else value)
    else None
  }

  /** `float(text)` on decimal text: an optional sign, digits with at most
      one decimal point, and at least one digit. */
  function ParseDecimal(text: string): (r: Option<real>)
    ensures r.Some? ==> |Strip(text)| > 0
  {
    var (negative, body) := SplitSign(Strip(text));
    var point := PointAt(body);
    var whole := body[..point];
    var fraction := if point < |body| then body[point + 1..] else "";
    if |whole| + |fraction| > 0 && AllDigits(whole) && AllDigits(fraction) then
      var magnitude := DigitsValue(whole) as real + DigitsValue(fraction) as real / Pow10(|fraction|) as real;
      Some(if negative then -magnitude else magnitude)
    else None
  }

  /** Position of the first '.', or the length when there is none. */
  function PointAt(s: string): (i: nat)
    ensures i <= |s|
    ensures i < |s| ==> s[i] == '.'
    ensures forall k :: 0 <= k < i ==> s[k] != '.'
    decreases |s|
  {
    if s == [] then 0 else if s[0] == '.' then 0 else 1 + PointAt(s[1..])
  }

  lemma {:induction false} ShowNatValue(n: nat)
    ensures DigitsValue(ShowNat(n)) == n
    decreases n
  {
    var d := [('0' as int + n % 10) as char];
    if n >= 10 {
      ShowNatValue(n / 10);
      var s := ShowNat(n / 10) + d;
      assert s[..|s| - 1] == ShowNat(n / 10);
    }
  }

  /** `int(str(n)) == n`: reading back a printed integer gives it again. */
  lemma ParseShowInt(n: int)
    ensures ParseInt(ShowInt(n)) == Some(n)
  {
    var s := ShowInt(n);
    var m: nat := if n < 0 then -n else n;
    var digits := ShowNat(m);
    ShowNatValue(m);
    assert Strip(s) == s by {
      StripUnpadded(s);
    }
    if n < 0 {
      assert s[0] == '-' && s[1..] == digits;
      assert SplitSign(s) == (true, digits);
    } else {
      assert IsDigit(s[0]);
      assert SplitSign(s) == (false, digits);
    }
  }

  /** `float` accepts every integer text `int` accepts, with the same
      value. */
  lemma {:induction false} DecimalAgreesWithInt(text: string)
    requires ParseInt(text).Some?
    ensures ParseDecimal(text) == Some(ParseInt(text).value as real)
  {
    var (negative, body) := SplitSign(Strip(text));
    var point := PointAt(body);
    assert forall k :: 0 <= k < |body| ==> body[k] != '.';
    assert body[..point] == body;
  }

  /** "0.70" reads as 0.7. */
  lemma ParseDecimalExample()
    ensures ParseDecimal("0.70") == Some(0.7)
  {
    assert Strip("0.70") == "0.70" by {
      StripUnpadded("0.70");
    }
    assert SplitSign("0.70") == (false, "0.70");
    assert PointAt("0.70") == 1;
    assert "0.70"[..1] == "0";
    assert "0.70"[2..] == "70";
    assert DigitsValue("70") == 70 by {
      assert "70"[..1] == "7";
      assert "7"[..0] == "";
    }
    assert AllDigits("0") by {
      assert |"0"| == 1 && IsDigit("0"[0]);
    }
    assert DigitsValue("0") == 0 by {
      assert "0"[..0] == "";
    }
    assert Pow10(2) == 100;
  }

  /** A decimal point is not part of an integer literal: `int` refuses any
      text with a '.' inside its surrounding whitespace. */
  lemma ParseIntRefusesPoint(text: string)
    requires '.' in Strip(text)
    ensures ParseInt(text) == None
  {
    var t := Strip(text);
    var k :| 0 <= k < |t| && t[k] == '.';
    var (negative, digits) := SplitSign(t);
    if |t| > 0 && (t[0] == '+' || t[0] == '-') {
      assert digits[k - 1] == '.';
    } else {
      assert digits[k] == '.';
    }
  }
}
