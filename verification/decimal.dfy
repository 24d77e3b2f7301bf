/** Decimal rendering of integers, as a JavaScript template literal shows an
    integer-valued number, together with the reader that undoes it. The
    reader exists so that properties of rendered strings can be stated as
    round trips. */
module Decimal {

  import opened Options

  predicate IsDigit(c: char) {
    '0' <= c <= '9'
  }

  predicate AllDigits(s: string) {
    forall i :: 0 <= i < |s| ==> IsDigit(s[i])
  }

  function DigitChar(d: nat): (c: char)
    requires d < 10
    ensures IsDigit(c)
    ensures DigitValue(c) == d
  {
    (('0' as int) + d) as char
  }

  function DigitValue(c: char): (d: nat)
    requires IsDigit(c)
    ensures d < 10
  {
    (c as int) - ('0' as int)
  }

  /** The decimal digits of `n`, most significant first, without leading zeros. */
  function Show(n: nat): (s: string)
    ensures |s| > 0
    ensures AllDigits(s)
    ensures s[0] == '0' <==> n == 0
    decreases n
  {
    if n < 10 then [DigitChar(n)] else Show(n / 10) + [DigitChar(n % 10)]
  }

  /** How an integer is shown: a minus sign for negative values, then the digits. */
  function ShowInt(i: int): (s: string)
    ensures |s| > 0
    ensures i >= 0 ==> s == Show(i)
    ensures i < 0 <==> s[0] == '-'
  {
    if i < 0 then "-" + Show(-i) else Show(i)
  }

  /** The number a string of digits denotes. */
  function Value(s: string): nat
    requires AllDigits(s)
  {
    if |s| == 0 then 0 else Value(s[..|s| - 1]) * 10 + DigitValue(s[|s| - 1])
  }

  /** Length of the longest prefix of `s` made of digits. */
  function DigitRun(s: string): (k: nat)
    ensures k <= |s|
    ensures AllDigits(s[..k])
    ensures k < |s| ==> !IsDigit(s[k])
  {
    if |s| == 0 || !IsDigit(s[0]) then 0 else 1 + DigitRun(s[1..])
  }

  /** Reads an optionally signed decimal number at the front of `s` and
      returns it with the rest of the string; `None` when no digit follows. */
  function ReadInt(s: string): Option<(int, string)>
  {
    var neg := |s| > 0 && s[0] == '-';
    var t := if neg then s[1..] else s;
    var k := DigitRun(t);
    if k == 0 then None
    else
      var n: int := Value(t[..k]);
      Some((if neg then -n else n, t[k..]))
  }

  lemma {:induction false} ValueOfShow(n: nat)
    ensures Value(Show(n)) == n
    decreases n
  {
    if n >= 10 {
      var s := Show(n);
      assert s[..|s| - 1] == Show(n / 10);
      ValueOfShow(n / 10);
    }
  }

  lemma {:induction false} DigitRunOfDigits(s: string, t: string)
    requires AllDigits(s)
    requires |t| == 0 || !IsDigit(t[0])
    ensures DigitRun(s + t) == |s|
    decreases |s|
  {
    if |s| > 0 {
      assert (s + t)[1..] == s[1..] + t;
      DigitRunOfDigits(s[1..], t);
    }
  }

  /** Reading back a rendered integer recovers it and leaves the text that
      followed, provided that text does not itself start with a digit. */
  lemma ReadShowInt(i: int, t: string)
    requires |t| == 0 || !IsDigit(t[0])
    ensures ReadInt(ShowInt(i) + t) == Some((i, t))
  {
    var s := ShowInt(i) + t;
    var digits := if i < 0 then Show(-i) else Show(i);
    var body := if i < 0 then s[1..] else s;
    assert body == digits + t;
    assert s[0] == '-' <==> i < 0 by {
      assert s[0] == ShowInt(i)[0];
    }
    DigitRunOfDigits(digits, t);
    assert body[..|digits|] == digits;
    assert body[|digits|..] == t;
    ValueOfShow(if i < 0 then -i else i);
  }

  lemma ShowIntInjective(a: int, b: int)
    ensures ShowInt(a) == ShowInt(b) <==> a == b
  {
    if ShowInt(a) == ShowInt(b) {
      ReadShowInt(a, "");
      ReadShowInt(b, "");
      assert ShowInt(a) + "" == ShowInt(a);
      assert ShowInt(b) + "" == ShowInt(b);
    }
  }

}
