/**
 * The phone field's live input formatter (script.js, `input` listener on `#phone`):
 * every non-digit is stripped (`replace(/\D/g, '')`), then the digits are rendered
 * as `(D`, `(DDD) D...` or `(DDD) DDD-DDDD`; digits after the tenth are dropped.
 * `\d` without the `u` flag is exactly the ASCII digits `0`-`9`.
 */
module PhoneFormat {
  import opened Common

  predicate IsDigit(c: char) {
    '0' <= c <= '9'
  }

  /** The punctuation the mask inserts around the digits. */
  predicate IsMaskChar(c: char) {
    c == '(' || c == ')' || c == ' ' || c == '-'
  }

  predicate AllDigits(s: seq<char>) {
    forall i :: 0 <= i < |s| ==> IsDigit(s[i])
  }

  /** `s.replace(/\D/g, '')`: the digits of `s`, in order. */
  function Digits(s: seq<char>): (d: seq<char>)
    ensures AllDigits(d)
    ensures |d| <= |s|
  {
    if s == [] then []
    else if IsDigit(s[0]) then [s[0]] + Digits(s[1..])
    else Digits(s[1..])
  }

  /** On one character, stripping keeps a digit and drops anything else. */
  lemma DigitsOfChar(c: char)
    ensures Digits([c]) == if IsDigit(c) then [c] else []
  {
    assert [c][1..] == [];
  }

  /** Stripping distributes over concatenation; with `DigitsOfChar` this determines `Digits` on every string. */
  lemma {:induction false} DigitsAppend(a: seq<char>, b: seq<char>)
    ensures Digits(a + b) == Digits(a) + Digits(b)
  {
    if a == [] {
      assert a + b == b;
    } else {
      assert (a + b)[1..] == a[1..] + b;
      DigitsAppend(a[1..], b);
    }
  }

  /** A string of digits alone is left as it is. */
  lemma {:induction false} DigitsOfDigits(s: seq<char>)
    requires AllDigits(s)
    ensures Digits(s) == s
  {
    if s != [] {
      DigitsOfDigits(s[1..]);
    }
  }

  /** Digits taken from a string of mask characters alone: none. */
  lemma {:induction false} DigitsOfMask(s: seq<char>)
    requires forall i :: 0 <= i < |s| ==> IsMaskChar(s[i])
    ensures Digits(s) == []
  {
    if s != [] {
      DigitsOfMask(s[1..]);
    }
  }

  /** The mask applied to a string of digits (the `if` chain on `value.length`). */
  function Render(d: seq<char>): (r: seq<char>)
    requires AllDigits(d)
    ensures |r| <= 14
    ensures r == [] <==> d == []
    ensures d != [] ==> r[0] == '('
    ensures forall i :: 0 <= i < |r| ==> IsDigit(r[i]) || IsMaskChar(r[i])
  {
    if |d| == 0 then ""
    else if |d| <= 3 then "(" + d
    else if |d| <= 6 then "(" + d[..3] + ") " + d[3..]
    else "(" + d[..3] + ") " + d[3..6] + "-" + d[6..Min(|d|, 10)]
  }

  /** The new value of the phone field after an `input` event on a field holding `s`. */
  function Format(s: seq<char>): (r: seq<char>)
    ensures |r| <= 14
    ensures r == [] <==> Digits(s) == []
    ensures |Digits(s)| > 0 ==> r[0] == '('
  {
    Render(Digits(s))
  }

  /** The first `min(n, 10)` digits of the input: what the formatter keeps. */
  function KeptDigits(s: seq<char>): (k: seq<char>)
    ensures AllDigits(k)
    ensures |k| <= 10
  {
    var d := Digits(s);
    d[..Min(|d|, 10)]
  }

  /** Digits of `(` + `a` + `) ` + `b`, for digit strings `a` and `b`. */
  lemma DigitsOfOpenGroup(a: seq<char>, b: seq<char>)
    requires AllDigits(a) && AllDigits(b)
    ensures Digits("(" + a + ") " + b) == a + b
  {
    var open, close := "(", ") ";
    assert Digits(open) == [] by { DigitsOfMask(open); }
    assert Digits(close) == [] by { DigitsOfMask(close); }
    assert Digits(open + a) == a by { DigitsAppend(open, a); DigitsOfDigits(a); }
    assert Digits(close + b) == b by { DigitsAppend(close, b); DigitsOfDigits(b); }
    assert "(" + a + ") " + b == (open + a) + (close + b);
    DigitsAppend(open + a, close + b);
  }

  /** The digits of the formatted value are exactly the first ten digits of the input, in order. */
  lemma FormatKeepsDigits(s: seq<char>)
    ensures Digits(Format(s)) == KeptDigits(s)
  {
    var d := Digits(s);
    var n := |d|;
    if n == 0 {
    } else if n <= 3 {
      DigitsAppend("(", d);
      DigitsOfMask("(");
      DigitsOfDigits(d);
      assert d[..n] == d;
    } else if n <= 6 {
      DigitsOfOpenGroup(d[..3], d[3..]);
      assert d[..3] + d[3..] == d == d[..n];
    } else {
      var m := Min(n, 10);
      var head := "(" + d[..3] + ") " + d[3..6];
      assert Format(s) == head + ("-" + d[6..m]);
      DigitsAppend(head, "-" + d[6..m]);
      DigitsOfOpenGroup(d[..3], d[3..6]);
      DigitsAppend("-", d[6..m]);
      DigitsOfMask("-");
      DigitsOfDigits(d[6..m]);
      assert d[..3] + d[3..6] + d[6..m] == d[..m];
    }
  }

  /** Every character of the formatted value is a digit or one of `(`, `)`, space, `-`. */
  lemma FormatAlphabet(s: seq<char>)
    ensures forall i :: 0 <= i < |Format(s)| ==> IsDigit(Format(s)[i]) || IsMaskChar(Format(s)[i])
  {
  }

  /** The shape of the output, by the number of digits in the input. */
  lemma FormatShape(s: seq<char>)
    ensures var d := Digits(s);
      (|d| == 0 ==> Format(s) == "") &&
      (1 <= |d| <= 3 ==> Format(s) == "(" + d) &&
      (4 <= |d| <= 6 ==> Format(s) == "(" + d[..3] + ") " + d[3..]) &&
      (7 <= |d| ==> Format(s) == "(" + d[..3] + ") " + d[3..6] + "-" + d[6..Min(|d|, 10)])
  {
  }

  /** Formatting a value that is already formatted leaves it unchanged. */
  lemma FormatIdempotent(s: seq<char>)
    ensures Format(Format(s)) == Format(s)
  {
    FormatKeepsDigits(s);
    var d := Digits(s);
    var k := KeptDigits(s);
    assert Digits(Format(s)) == k;
    if |d| > 6 {
      assert k[..3] == d[..3] && k[3..6] == d[3..6] && k[6..Min(|k|, 10)] == d[6..Min(|d|, 10)];
    } else {
      assert k == d;
    }
  }

  /** On a string of digits alone, formatting is the mask applied to the string itself. */
  lemma FormatOfDigitString(d: seq<char>)
    requires AllDigits(d)
    ensures Format(d) == Render(d)
  {
    DigitsOfDigits(d);
  }

  /** Ten digits give the full mask. */
  lemma FormatTenDigits()
    ensures Format("5551234567") == "(555) 123-4567"
  {
    var d := "5551234567";
    assert d[..3] == "555" && d[3..6] == "123" && d[6..Min(|d|, 10)] == "4567";
    assert Render(d) == "(555) 123-4567";
    FormatOfDigitString(d);
  }

  /** Two digits give an open area code. */
  lemma FormatTwoDigits()
    ensures Format("55") == "(55"
  {
    FormatOfDigitString("55");
  }

  /** Seven digits: the last group holds one digit. */
  lemma FormatSevenDigits()
    ensures Format("5551234") == "(555) 123-4"
  {
    var d := "5551234";
    assert d[..3] == "555" && d[3..6] == "123" && d[6..Min(|d|, 10)] == "4";
    assert Render(d) == "(555) 123-4";
    FormatOfDigitString(d);
  }

  /** No digits at all: the field is emptied. */
  lemma FormatNoDigits()
    ensures Format("abc") == ""
  {
    assert Digits("abc") == Digits("bc") == Digits("c") == [];
  }
}
