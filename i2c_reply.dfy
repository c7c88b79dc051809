/**
  The text the I2C slave sends when the master polls it: `"speed:"`, the
  decimal digits of the published speed as `Print::print(int)` writes them, and
  a newline. `ParsePayload` is what the master does to read it back.
 */
module I2cReply {
  import opened Optional

  const Prefix: string := "speed:"

  predicate IsDigit(c: char) {
    '0' <= c <= '9'
  }

  predicate AllDigits(s: string) {
    forall i :: 0 <= i < |s| ==> IsDigit(s[i])
  }

  /** The decimal form of a natural number: non-empty, digits only, no leading zero. */
  predicate Canonical(s: string) {
    |s| >= 1 && AllDigits(s) && (s[0] == '0' ==> |s| == 1)
  }

  function DigitChar(d: nat): (c: char)
    requires d < 10
    ensures IsDigit(c) && c as int - '0' as int == d
  {
    ('0' as int + d) as char
  }

  function DigitValue(c: char): (d: nat)
    requires IsDigit(c)
    ensures d < 10 && DigitChar(d) == c
  {
    c as int - '0' as int
  }

  /** The digits `print` emits for a non-negative number, most significant first. */
  function Digits(n: nat): (s: string)
    ensures Canonical(s)
    ensures n < 10 <==> |s| == 1
  {
    if n < 10 then [DigitChar(n)] else Digits(n / 10) + [DigitChar(n % 10)]
  }

  /** The number a string of decimal digits denotes. */
  function ValueOf(s: string): nat
    requires AllDigits(s)
  {
    if s == [] then 0 else ValueOf(s[..|s| - 1]) * 10 + DigitValue(s[|s| - 1])
  }

  /** `print(int)`: a minus sign for negative values, then the digits of the magnitude. */
  function Decimal(v: int): (s: string)
    ensures |s| >= 1 && (s[0] == '-' <==> v < 0)
    ensures AllDigits(s[1..])
  {
    if v < 0 then "-" + Digits(-v) else Digits(v)
  }

  /** What `onRequest` writes on the bus for the current value of `finalSpeed`. */
  function Payload(speed: int): (p: string)
    ensures |p| >= |Prefix| + 2 && p[..|Prefix|] == Prefix && p[|p| - 1] == '\n'
    ensures 0 <= speed ==> p == Prefix + Digits(speed) + "\n"
  {
    Prefix + Decimal(speed) + "\n"
  }

  /** Reads back a number written by `Decimal`; anything else is refused. */
  function ParseDecimal(s: string): Option<int> {
    if |s| >= 2 && s[0] == '-' && Canonical(s[1..]) && s[1] != '0' then Some(-(ValueOf(s[1..]) as int))
    else if Canonical(s) then Some(ValueOf(s))
    else None
  }

  /** The master's side of the exchange: accepts exactly the payloads `onRequest` can send. */
  function ParsePayload(p: string): Option<int> {
    if |p| >= |Prefix| + 1 && p[..|Prefix|] == Prefix && p[|p| - 1] == '\n'
    then ParseDecimal(p[|Prefix|..|p| - 1])
    else None
  }

  /** Reading the digits of `n` gives `n`. */
  lemma {:induction false} ValueOfDigits(n: nat)
    ensures ValueOf(Digits(n)) == n
  {
    if n >= 10 {
      var s := Digits(n);
      assert s[..|s| - 1] == Digits(n / 10);
      ValueOfDigits(n / 10);
    }
  }

  /** A canonical digit string that does not start with '0' denotes a positive number. */
  lemma {:induction false} ValueOfPositive(s: string)
    requires Canonical(s) && s[0] != '0'
    ensures ValueOf(s) >= 1
  {
    if |s| > 1 {
      ValueOfPositive(s[..|s| - 1]);
    }
  }

  /** Every canonical digit string is the output of `Digits` for the number it denotes. */
  lemma {:induction false} DigitsOfValue(s: string)
    requires Canonical(s)
    ensures Digits(ValueOf(s)) == s
  {
    if |s| > 1 {
      var init := s[..|s| - 1];
      var last := s[|s| - 1];
      assert Canonical(init);
      ValueOfPositive(init);
      DigitsOfValue(init);
      var v, q, d := ValueOf(s), ValueOf(init), DigitValue(last);
      assert v == q * 10 + d;
      assert v / 10 == q && v % 10 == d;
      assert Digits(v) == Digits(q) + [DigitChar(d)];
      assert s == init + [last];
    }
  }

  /** `ParseDecimal` inverts `Decimal`. */
  lemma DecimalRoundTrip(v: int)
    ensures ParseDecimal(Decimal(v)) == Some(v)
  {
    if v < 0 {
      var digits := Digits(-v);
      ValueOfDigits(-v);
      assert digits[0] != '0';
      var s := "-" + digits;
      assert s[1..] == digits;
    } else {
      ValueOfDigits(v);
    }
  }

  /** `ParseDecimal` accepts only what `Decimal` writes. */
  lemma ParseDecimalSound(s: string, v: int)
    requires ParseDecimal(s) == Some(v)
    ensures Decimal(v) == s
  {
    if |s| >= 2 && s[0] == '-' && Canonical(s[1..]) && s[1] != '0' {
      ValueOfPositive(s[1..]);
      DigitsOfValue(s[1..]);
      assert s == "-" + s[1..];
    } else {
      DigitsOfValue(s);
    }
  }

  /** The master decodes the value the slave published. */
  lemma PayloadParses(v: int)
    ensures ParsePayload(Payload(v)) == Some(v)
  {
    var q := Payload(v);
    assert q[|Prefix|..|q| - 1] == Decimal(v);
    DecimalRoundTrip(v);
  }

  /** Nothing decodes that `onRequest` could not have sent. */
  lemma PayloadParsedOnly(p: string, v: int)
    requires ParsePayload(p) == Some(v)
    ensures p == Payload(v)
  {
    var body := p[|Prefix|..|p| - 1];
    ParseDecimalSound(body, v);
    assert p == p[..|Prefix|] + body + [p[|p| - 1]];
  }

  /** The master decodes `v` from a message exactly when the message is the reply for `v`. */
  lemma PayloadRoundTrip(p: string, v: int)
    ensures ParsePayload(p) == Some(v) <==> p == Payload(v)
  {
    PayloadParses(v);
    if ParsePayload(p) == Some(v) {
      PayloadParsedOnly(p, v);
    }
  }
}
