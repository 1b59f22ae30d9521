/** Python's `int(text)` and `str(n)` for the decimal integers the script reads and writes. */
module Numbers {
  import opened Wrappers
  import opened Text

  predicate IsDigit(c: char) {
    '0' <= c <= '9'
  }

  predicate AllDigits(s: string) {
    forall i :: 0 <= i < |s| ==> IsDigit(s[i])
  }

  function DigitValue(c: char): nat
    requires IsDigit(c)
  {
    (c as int) - ('0' as int)
  }

  function DigitChar(d: nat): (c: char)
    requires d < 10
    ensures IsDigit(c) && DigitValue(c) == d
  {
    (('0' as int) + d) as char
  }

  /** The value of a run of decimal digits, most significant first. */
  function DigitsValue(s: string): nat
    requires AllDigits(s)
  {
    if |s| == 0 then 0 else DigitsValue(s[..|s| - 1]) * 10 + DigitValue(s[|s| - 1])
  }

  /** `str(n)` for a non-negative `n`: the shortest decimal digits whose value is `n`. */
  function NatToString(n: nat): (r: string)
    ensures |r| > 0 && AllDigits(r)
    ensures DigitsValue(r) == n
    ensures |r| > 1 ==> r[0] != '0'
    decreases n
  {
    if n < 10 then [DigitChar(n)]
    else
      var r := NatToString(n / 10) + [DigitChar(n % 10)];
      assert r[..|r| - 1] == NatToString(n / 10);
      r
  }

  /** `str(n)`: a minus sign before the digits of a negative number. */
  function IntToString(n: int): (r: string)
    ensures |r| > 0 && IsDigit(r[|r| - 1])
    ensures n < 0 <==> r[0] == '-'
    ensures forall i :: 0 <= i < |r| ==> IsDigit(r[i]) || (i == 0 && r[i] == '-')
  {
    if n < 0 then "-" + NatToString(-n) else NatToString(n)
  }

  /** An optional sign followed by at least one decimal digit, and nothing else. */
  function ParseDecimal(t: string): (r: Option<int>)
    ensures r.Some? ==> |t| > 0 && IsDigit(t[|t| - 1])
  {
    var signed := |t| > 0 && (t[0] == '-' || t[0] == '+');
    var digits := if signed then t[1..] else t;
    if |digits| > 0 && AllDigits(digits) then
      var v: int := DigitsValue(digits);
      Some(if signed && t[0] == '-' then -v else v)
    else
      None
  }

  /** A character `int()` skips around its digits: the characters
      `str.isspace()` accepts, except the ASCII separators FS, GS, RS and US
      (`\x1c`-`\x1f`), which `str.strip()` drops but `int()` rejects. */
  predicate IntSpace(c: char) {
    IsSpace(c) && !('\U{1C}' <= c <= '\U{1F}')
  }

  predicate AllIntSpace(s: string) {
    forall i :: 0 <= i < |s| ==> IntSpace(s[i])
  }

  /** `s` without the leading characters `int()` skips. */
  function IntLStrip(s: string): (r: string)
    ensures |r| <= |s|
    decreases |s|
  {
    if |s| > 0 && IntSpace(s[0]) then IntLStrip(s[1..]) else s
  }

  /** `s` without the trailing characters `int()` skips. */
  function IntRStrip(s: string): (r: string)
    ensures |r| <= |s|
    decreases |s|
  {
    if |s| > 0 && IntSpace(s[|s| - 1]) then IntRStrip(s[..|s| - 1]) else s
  }

  /** `int(text)`: skipped whitespace around an optional sign and at least one
      decimal digit; None where Python raises ValueError. */
  function ParseInt(text: string): Option<int> {
    ParseDecimal(IntRStrip(IntLStrip(text)))
  }

  /** The left trim is a suffix; every character it drops is skipped by `int()`. */
  lemma {:induction false} IntLStripSuffix(s: string)
    ensures IntLStrip(s) == s[|s| - |IntLStrip(s)|..]
    ensures AllIntSpace(s[..|s| - |IntLStrip(s)|])
    decreases |s|
  {
    if |s| > 0 && IntSpace(s[0]) {
      IntLStripSuffix(s[1..]);
      var r := IntLStrip(s[1..]);
      assert s[1..][..|s| - 1 - |r|] == s[1..|s| - |r|];
    }
  }

  /** The right trim is a prefix. */
  lemma {:induction false} IntRStripPrefix(s: string)
    ensures IntRStrip(s) == s[..|IntRStrip(s)|]
    decreases |s|
  {
    if |s| > 0 && IntSpace(s[|s| - 1]) {
      IntRStripPrefix(s[..|s| - 1]);
    }
  }

  /** Blank text is not a number, whether or not `int()` skips its characters. */
  lemma ParseIntBlank(text: string)
    requires AllSpace(text)
    ensures ParseInt(text) == None
  {
    var l := IntLStrip(text);
    IntLStripSuffix(text);
    IntRStripPrefix(l);
    var t := IntRStrip(l);
    assert t == text[|text| - |l|..][..|t|];
  }

  /** `int()` refuses a text holding one of the separators `\x1c`-`\x1f`
      before its digits, although `str.strip()` would drop it. */
  lemma ParseIntSeparator(c: char, x: string)
    requires '\U{1C}' <= c <= '\U{1F}'
    ensures IsSpace(c)
    ensures ParseInt([c] + x) == None
  {
    var s := [c] + x;
    assert IntLStrip(s) == s;
    IntRStripPrefix(s);
    var t := IntRStrip(s);
    if |t| > 0 {
      assert t[0] == c;
    }
  }

  /** Text that `int()` has nothing to skip around is left as it is. */
  lemma IntTrimmed(x: string)
    requires |x| == 0 || (!IntSpace(x[0]) && !IntSpace(x[|x| - 1]))
    ensures IntRStrip(IntLStrip(x)) == x
  {
  }

  /** Leading skipped characters do not change the left trim. */
  lemma {:induction false} IntLStripDrops(a: string, y: string)
    requires AllIntSpace(a)
    ensures IntLStrip(a + y) == IntLStrip(y)
    decreases |a|
  {
    if |a| > 0 {
      assert (a + y)[0] == a[0] && IntSpace(a[0]);
      assert (a + y)[1..] == a[1..] + y;
      IntLStripDrops(a[1..], y);
    } else {
      assert a + y == y;
    }
  }

  /** Trailing skipped characters do not change the right trim. */
  lemma {:induction false} IntRStripDrops(y: string, b: string)
    requires AllIntSpace(b)
    ensures IntRStrip(y + b) == IntRStrip(y)
    decreases |b|
  {
    if |b| > 0 {
      assert (y + b)[|y + b| - 1] == b[|b| - 1] && IntSpace(b[|b| - 1]);
      assert (y + b)[..|y + b| - 1] == y + b[..|b| - 1];
      IntRStripDrops(y, b[..|b| - 1]);
    } else {
      assert y + b == y;
    }
  }

  /** Once the left trim reaches a character `int()` does not skip, what
      follows is kept whole. */
  lemma {:induction false} IntLStripAppend(x: string, b: string)
    requires !AllIntSpace(x)
    ensures IntLStrip(x + b) == IntLStrip(x) + b
    decreases |x|
  {
    if IntSpace(x[0]) {
      assert (x + b)[1..] == x[1..] + b;
      assert !AllIntSpace(x[1..]) by {
        var i :| 0 <= i < |x| && !IntSpace(x[i]);
        assert x[1..][i - 1] == x[i];
      }
      IntLStripAppend(x[1..], b);
    }
  }

  lemma ParseDecimalToString(n: int)
    ensures ParseDecimal(IntToString(n)) == Some(n)
  {
    if n < 0 {
      var d := NatToString(-n);
      var s := "-" + d;
      assert s[1..] == d;
      assert ParseDecimal(s) == Some(0 - DigitsValue(d) as int);
    } else {
      var d := NatToString(n);
      assert IsDigit(d[0]);
      assert ParseDecimal(d) == Some(DigitsValue(d));
    }
  }

  /** `int(str(n)) == n`. */
  lemma ParseIntToString(n: int)
    ensures ParseInt(IntToString(n)) == Some(n)
  {
    var s := IntToString(n);
    IntTrimmed(s);
    ParseDecimalToString(n);
  }

  /** The whitespace `int()` skips around a number does not change what it reads. */
  lemma ParseIntPadded(a: string, x: string, b: string)
    requires AllIntSpace(a) && AllIntSpace(b)
    ensures ParseInt(a + x + b) == ParseInt(x)
  {
    assert a + x + b == a + (x + b);
    IntLStripDrops(a, x + b);
    if AllIntSpace(x) {
      assert AllIntSpace(x + b);
      IntLStripDrops(x + b, []);
      IntLStripDrops(x, []);
      assert x + b + [] == x + b && x + [] == x;
    } else {
      IntLStripAppend(x, b);
      IntRStripDrops(IntLStrip(x), b);
    }
  }

  /** The text `str(n)` shares no character with a pattern that holds none of
      the characters `-0123456789`. */
  lemma IntToStringAvoids(n: int, p: string)
    requires forall k :: 0 <= k < |p| ==> !IsDigit(p[k]) && p[k] != '-'
    ensures forall i :: 0 <= i < |IntToString(n)| ==> IntToString(n)[i] !in p
  {
  }
}
