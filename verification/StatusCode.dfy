/** The digit printer of rule.go: fills a 10-byte buffer from the right. */
module StatusCode {
  import opened Types
  import opened Text

  const MIN_PRINTABLE: int := -999999999
  const MAX_PRINTABLE: int := 9999999999

  /** What the printer yields: `None` is the run-time panic of an index below the buffer. The
      least int64 is its own negation, so the digit loop does not run and only the sign is left. */
  function StatusText(code: Int64): Option<string> {
    if code == MIN_INT64 then Some("-")
    else if MIN_PRINTABLE <= code <= MAX_PRINTABLE then Some(Decimal(code))
    else None
  }

  /** `-code` in int64, where the least value is its own negation. */
  method Negate(code: int) returns (c: Int64)
    requires MIN_INT64 <= code <= MAX_INT64
    ensures c == if code == MIN_INT64 then code else -code
  {
    c := Wrap64(-code);
  }

  /** The digits of n, none for 0. */
  function Digits(n: nat): string {
    if n == 0 then [] else DecimalNat(n)
  }

  lemma DigitsUnroll(n: nat)
    requires n > 0
    ensures Digits(n) == Digits(n / 10) + [Digit(n % 10)] && Digits(n) != []
  {
  }

  /** One turn of the digit loop: stores the last digit of c at i and drops it from c. */
  method PutDigit(buf: array<char>, i: nat, c: nat) returns (q: nat)
    requires i < buf.Length && c > 0
    modifies buf
    ensures q < c && Digits(q) + buf[i..] == Digits(c) + old(buf[i + 1..])
  {
    DigitsUnroll(c);
    buf[i] := Digit(c % 10);
    assert buf[i..] == [Digit(c % 10)] + old(buf[i + 1..]);
    q := c / 10;
  }

  /** The digit loop: fills buf from the right. `ok` is false when the index would leave the buffer. */
  method FillDigits(buf: array<char>, code: nat) returns (i: nat, ok: bool)
    requires code > 0
    modifies buf
    ensures ok <==> |Digits(code)| <= buf.Length
    ensures ok ==> i <= buf.Length && buf[i..] == Digits(code)
  {
    i := buf.Length;
    var c := code;
    while c > 0
      invariant i <= buf.Length
      invariant Digits(code) == Digits(c) + buf[i..]
    {
      if i == 0 {
        assert Digits(c) != [];
        return 0, false;
      }
      i := i - 1;
      c := PutDigit(buf, i, c);
    }
    ok := true;
  }

  method StatusCodeStr(code: Int64) returns (r: Option<string>)
    ensures r == StatusText(code)
  {
    if code == 0 {
      return Some("0");
    }
    var buf := new char[10](_ => 0 as char);
    var i: nat := buf.Length;
    var neg := code < 0;
    var c: int := code;
    if neg {
      c := Negate(c);
    }
    ghost var digits: string := [];
    if c > 0 {
      DigitsBounds(c);
      digits := DecimalNat(c);
      var ok;
      i, ok := FillDigits(buf, c);
      if !ok {
        return None;
      }
    }
    assert buf[i..] == digits && |digits| == 10 - i;
    if neg {
      if i == 0 {
        return None;
      }
      i := i - 1;
      buf[i] := '-';
      assert buf[i..] == "-" + digits;
      assert "-" + [] == "-";
    }
    return Some(buf[i..]);
  }

  lemma DigitsBounds(abs: nat)
    ensures |DecimalNat(abs)| <= 10 <==> abs <= MAX_PRINTABLE
    ensures |DecimalNat(abs)| <= 9 <==> abs <= -MIN_PRINTABLE
  {
    DecimalNatLength(abs, 10);
    DecimalNatLength(abs, 9);
    assert Pow10(9) == 1000000000 by {
      assert Pow10(1) == 10;
      assert Pow10(3) == 1000;
      assert Pow10(5) == 100000;
      assert Pow10(7) == 10000000;
    }
    assert Pow10(10) == 10 * Pow10(9);
  }

  /** On its whole range the printer is exact: parsing gives the code back, and the text survives
      `strings.TrimSpace`. Outside the range it panics, or prints a lone sign. */
  lemma PrinterIsExact(code: Int64)
    ensures StatusText(code).Some? <==> MIN_PRINTABLE <= code <= MAX_PRINTABLE || code == MIN_INT64
    ensures MIN_PRINTABLE <= code <= MAX_PRINTABLE ==> ParseInt(StatusText(code).value) == code
    ensures StatusText(code).Some? ==> TrimSpace(StatusText(code).value) == StatusText(code).value
  {
    DecimalRoundTrip(code);
    DecimalCharacters(code);
  }

  lemma PrinterIsInjective(a: Int64, b: Int64)
    requires StatusText(a).Some? && StatusText(a) == StatusText(b)
    ensures a == b
  {
    DecimalRoundTrip(a);
    DecimalRoundTrip(b);
  }

  /** A one-digit `starts_with` rule on a positive status selects whole decades: "5" matches
      500..599, but also 5, 50..59 and 5000..5999. */
  lemma StartsWithDigit(code: Int64, d: int)
    requires 0 < code <= MAX_PRINTABLE && 1 <= d <= 9
    ensures HasPrefix(StatusText(code).value, [Digit(d)]) <==> exists k: nat :: LeadsWith(code, d, k)
  {
    LeadingDigit(code, d);
    DecimalNatIsCanonical(code);
    var s := DecimalNat(code);
    assert [Digit(d)] <= s <==> s[0] == Digit(d);
  }
}
