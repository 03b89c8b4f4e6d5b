/**
  Decimal text as the scripts use it: `str(n)`, `int(s)` and `str.zfill(w)`.
*/
module Decimal {
  import opened Outcomes

  predicate IsDigit(c: char) { '0' <= c <= '9' }

  predicate AllDigits(s: string) {
    forall k :: 0 <= k < |s| ==> IsDigit(s[k])
  }

  function DigitChar(d: nat): (c: char)
    requires d < 10
    ensures IsDigit(c) && c as int - '0' as int == d
  {
    ('0' as int + d) as char
  }

  /** The number a string of decimal digits denotes (leading zeros allowed). */
  function DigitsValue(s: string): nat
    requires AllDigits(s)
    decreases |s|
  {
    if s == [] then 0 else DigitsValue(s[..|s| - 1]) * 10 + (s[|s| - 1] as int - '0' as int)
  }

  /** `str(n)` for a non-negative integer. */
  function NatToString(n: nat): (s: string)
    ensures |s| >= 1 && AllDigits(s)
    ensures |s| > 1 ==> s[0] != '0'
    decreases n
  {
    if n < 10 then [DigitChar(n)] else NatToString(n / 10) + [DigitChar(n % 10)]
  }

  /** `str(i)` for any integer. */
  function IntToString(i: int): (s: string)
    ensures |s| >= 1
    ensures s[0] == '-' <==> i < 0
  {
    if i < 0 then "-" + NatToString(-i) else NatToString(i)
  }

  /** The text `int` accepts: an optional `+` or `-`, then at least one ASCII digit. */
  predicate Numeral(s: string) {
    || (|s| > 0 && AllDigits(s))
    || (|s| > 1 && (s[0] == '-' || s[0] == '+') && AllDigits(s[1..]))
  }

  /**
    `int(s)`: an optional sign followed by at least one ASCII digit; anything
    else raises ValueError.
  */
  function ParseInt(s: string): (r: Result<int>)
    ensures r.Ok? <==> Numeral(s)
    ensures r.Err? ==> r.error == ValueError
    ensures AllDigits(s) && |s| > 0 ==> r == Ok(DigitsValue(s))
    ensures |s| > 1 && s[0] == '+' && AllDigits(s[1..]) ==> r == Ok(DigitsValue(s[1..]))
    ensures |s| > 1 && s[0] == '-' && AllDigits(s[1..]) ==> r == Ok(-(DigitsValue(s[1..]) as int))
    ensures |s| == 0 ==> r == Err(ValueError)
  {
    if |s| > 0 && (s[0] == '-' || s[0] == '+') then
      var body := s[1..];
      if |body| > 0 && AllDigits(body) then
        var v: int := DigitsValue(body);
        Ok(if s[0] == '-' then -v else v)
      else Err(ValueError)
    else if |s| > 0 && AllDigits(s) then Ok(DigitsValue(s))
    else Err(ValueError)
  }

  function Zeros(k: nat): (z: string)
    ensures |z| == k && AllDigits(z)
    ensures forall i :: 0 <= i < k ==> z[i] == '0'
  {
    seq(k, _ => '0')
  }

  /**
    `s.zfill(w)`: left-pad with '0' to width `w`, keeping a leading sign in
    front of the padding; a string already `w` long or longer is returned as is.
  */
  function ZFill(s: string, w: int): (r: string)
    ensures |r| == if |s| >= w then |s| else w
    ensures |s| >= w ==> r == s
    ensures |s| < w && (|s| == 0 || (s[0] != '-' && s[0] != '+')) ==>
              r == Zeros(w - |s|) + s
    ensures |s| < w && |s| > 0 && (s[0] == '-' || s[0] == '+') ==>
              r == [s[0]] + Zeros(w - |s|) + s[1..]
  {
    if |s| >= w then s
    else if |s| > 0 && (s[0] == '-' || s[0] == '+') then [s[0]] + Zeros(w - |s|) + s[1..]
    else Zeros(w - |s|) + s
  }

  lemma {:induction false} NatToStringValue(n: nat)
    ensures DigitsValue(NatToString(n)) == n
    decreases n
  {
    if n >= 10 {
      NatToStringValue(n / 10);
      var s := NatToString(n);
      assert s[..|s| - 1] == NatToString(n / 10);
    }
  }

  lemma {:induction false} ZeroPrefixValue(t: string)
    requires AllDigits(t)
    ensures AllDigits("0" + t) && DigitsValue("0" + t) == DigitsValue(t)
    decreases |t|
  {
    var z := "0" + t;
    if t != [] {
      assert z[..|z| - 1] == "0" + t[..|t| - 1];
      ZeroPrefixValue(t[..|t| - 1]);
    }
  }

  lemma {:induction false} LeadingZerosValue(k: nat, t: string)
    requires AllDigits(t)
    ensures AllDigits(Zeros(k) + t) && DigitsValue(Zeros(k) + t) == DigitsValue(t)
    decreases k
  {
    if k > 0 {
      assert Zeros(k) + t == "0" + (Zeros(k - 1) + t);
      LeadingZerosValue(k - 1, t);
      ZeroPrefixValue(Zeros(k - 1) + t);
    } else {
      assert Zeros(k) + t == t;
    }
  }

  /** `int(str(i)) == i` */
  lemma ParseIntToString(i: int)
    ensures ParseInt(IntToString(i)) == Ok(i)
  {
    if i < 0 {
      NatToStringValue(-i);
      assert IntToString(i)[1..] == NatToString(-i);
    } else {
      NatToStringValue(i);
    }
  }

  /** `int(str(i).zfill(w)) == i`: zero padding never changes the number read back. */
  lemma ParseZFilled(i: int, w: int)
    ensures ParseInt(ZFill(IntToString(i), w)) == Ok(i)
  {
    var s := IntToString(i);
    if |s| >= w {
      ParseIntToString(i);
    } else if i < 0 {
      assert s == "-" + NatToString(-i);
      PaddedNegative(-i, w - |s|);
      assert ZFill(s, w) == "-" + (Zeros(w - |s|) + NatToString(-i));
    } else {
      PaddedNatural(i, w - |s|);
    }
  }

  lemma PaddedNatural(n: nat, k: nat)
    ensures ParseInt(Zeros(k) + NatToString(n)) == Ok(n)
  {
    NatToStringValue(n);
    LeadingZerosValue(k, NatToString(n));
    var z := Zeros(k) + NatToString(n);
    assert z[0] == '0' || z[0] == NatToString(n)[0];
  }

  lemma PaddedNegative(n: nat, k: nat)
    ensures ParseInt("-" + (Zeros(k) + NatToString(n))) == Ok(-(n as int))
  {
    var body := Zeros(k) + NatToString(n);
    NatToStringValue(n);
    LeadingZerosValue(k, NatToString(n));
    assert ("-" + body)[1..] == body;
  }

  /** Two numbers with the same decimal text are the same number. */
  lemma NatToStringInjective(a: nat, b: nat)
    requires NatToString(a) == NatToString(b)
    ensures a == b
  {
    NatToStringValue(a);
    NatToStringValue(b);
  }

  function Pow10(w: nat): (p: nat)
    ensures p >= 1
  {
    if w == 0 then 1 else 10 * Pow10(w - 1)
  }

  /** `str(n)` has at most `w >= 1` digits when `n < 10^w` (`str(0)` is one digit). */
  lemma {:induction false} NatToStringLength(n: nat, w: nat)
    requires w >= 1 && n < Pow10(w)
    ensures |NatToString(n)| <= w
    decreases n
  {
    if n >= 10 {
      assert w >= 1;
      var p := Pow10(w - 1);
      assert n < 10 * p;
      assert n / 10 < p;
      NatToStringLength(n / 10, w - 1);
    }
  }

  /** `str(n).zfill(w)` for a number that fits in `w` digits: exactly `w` digits that read back as `n`. */
  function Padded(n: nat, w: nat): (s: string)
    requires w >= 1 && n < Pow10(w)
    ensures |s| == w && AllDigits(s)
    ensures ParseInt(s) == Ok(n)
  {
    NatToStringLength(n, w);
    ParseZFilled(n, w);
    var s := ZFill(IntToString(n), w);
    assert s == Zeros(w - |NatToString(n)|) + NatToString(n);
    s
  }

  lemma AllDigitsConcat(a: string, b: string)
    requires AllDigits(a) && AllDigits(b)
    ensures AllDigits(a + b)
  {
    forall k | 0 <= k < |a + b|
      ensures IsDigit((a + b)[k])
    {
      if k >= |a| {
        assert (a + b)[k] == b[k - |a|];
      }
    }
  }
}
