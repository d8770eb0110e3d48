/** Strings as Go's library functions see them: decimal digits, white space, substrings. */
module Text {
  // ----- decimal numerals -----

  function Digit(d: int): char
    requires 0 <= d < 10
  {
    ('0' as int + d) as char
  }

  lemma DigitsAre(d: int)
    requires 0 <= d < 10
    ensures Digit(d) == "0123456789"[d]
  {
  }

  predicate IsDigit(c: char) {
    '0' <= c <= '9'
  }

  function DigitValue(c: char): int {
    c as int - '0' as int
  }

  /** The canonical numeral of a natural number: no sign and no leading zero. */
  function DecimalNat(n: nat): string {
    if n < 10 then [Digit(n)] else DecimalNat(n / 10) + [Digit(n % 10)]
  }

  function Decimal(n: int): string {
    if n < 0 then "-" + DecimalNat(-n) else DecimalNat(n)
  }

  function ParseNat(s: string): int {
    if s == [] then 0 else 10 * ParseNat(s[..|s| - 1]) + DigitValue(s[|s| - 1])
  }

  function ParseInt(s: string): int {
    if s != [] && s[0] == '-' then -ParseNat(s[1..]) else ParseNat(s)
  }

  ghost predicate CanonicalNat(s: string) {
    && s != []
    && (forall i :: 0 <= i < |s| ==> IsDigit(s[i]))
    && (s[0] == '0' ==> |s| == 1)
  }

  lemma {:induction false} DecimalNatIsCanonical(n: nat)
    ensures CanonicalNat(DecimalNat(n))
    ensures ParseNat(DecimalNat(n)) == n
    ensures DecimalNat(n)[0] == '0' <==> n == 0
  {
    if n >= 10 {
      DecimalNatIsCanonical(n / 10);
      var s := DecimalNat(n);
      assert s[..|s| - 1] == DecimalNat(n / 10);
    }
  }

  /** Parsing a numeral returns the number, so different numbers have different numerals. */
  lemma DecimalRoundTrip(n: int)
    ensures ParseInt(Decimal(n)) == n
  {
    var abs := if n < 0 then -n else n;
    var digits := DecimalNat(abs);
    DecimalNatIsCanonical(abs);
    assert IsDigit(digits[0]);
    assert n < 0 ==> ("-" + digits)[1..] == digits;
  }

  lemma DecimalCharacters(n: int)
    ensures Decimal(n) != [] && forall i :: 0 <= i < |Decimal(n)| ==> IsDigit(Decimal(n)[i]) || Decimal(n)[i] == '-'
  {
    var abs := if n < 0 then -n else n;
    var digits := DecimalNat(abs);
    DecimalNatIsCanonical(abs);
    assert Decimal(n) == (if n < 0 then "-" else "") + digits;
  }

  lemma DecimalInjective(m: int, n: int)
    requires Decimal(m) == Decimal(n)
    ensures m == n
  {
    DecimalRoundTrip(m);
    DecimalRoundTrip(n);
  }

  function Pow10(k: nat): (p: int)
    ensures p > 0
  {
    if k == 0 then 1 else 10 * Pow10(k - 1)
  }

  /** A numeral has at most k digits exactly when the number is below 10^k. */
  lemma {:induction false} DecimalNatLength(n: nat, k: nat)
    requires k > 0
    ensures |DecimalNat(n)| <= k <==> n < Pow10(k)
  {
    if n >= 10 {
      if k == 1 {
        assert |DecimalNat(n / 10)| > 0;
      } else {
        DecimalNatLength(n / 10, k - 1);
      }
    } else {
      assert Pow10(k) >= 10 by { PowTenGrows(k); }
    }
  }

  lemma PowTenGrows(k: nat)
    requires k > 0
    ensures Pow10(k) >= 10
  {
  }

  /** The leading digit of a positive number is d exactly when the number lies in one of
      the ranges [d*10^k, (d+1)*10^k). */
  lemma {:induction false} LeadingDigit(n: nat, d: int)
    requires n > 0 && 1 <= d <= 9
    ensures DecimalNat(n)[0] == Digit(d) <==> exists k: nat :: LeadsWith(n, d, k)
  {
    if n < 10 {
      if n == d {
        assert LeadsWith(n, d, 0);
      }
      forall k: nat | k > 0
        ensures !LeadsWith(n, d, k)
      {
        PowTenGrows(k);
        assert d * Pow10(k) >= 1 * Pow10(k);
      }
    } else {
      LeadingDigit(n / 10, d);
      if k: nat :| LeadsWith(n / 10, d, k) {
        ScaleLead(n, d, k);
      }
      if k: nat :| LeadsWith(n, d, k) {
        assert k > 0 by { assert k == 0 ==> Pow10(k) == 1; }
        ScaleLead(n, d, k - 1);
      }
    }
  }

  ghost predicate LeadsWith(n: int, d: int, k: nat) {
    d * Pow10(k) <= n < (d + 1) * Pow10(k)
  }

  lemma ScaleLead(n: nat, d: int, k: nat)
    ensures LeadsWith(n / 10, d, k) <==> LeadsWith(n, d, k + 1)
  {
    var p := Pow10(k);
    assert d * Pow10(k + 1) == 10 * (d * p);
    assert (d + 1) * Pow10(k + 1) == 10 * ((d + 1) * p);
  }

  // ----- substrings -----

  predicate HasPrefix(s: string, prefix: string) {
    prefix <= s
  }

  ghost predicate OccursAt(s: string, t: string, i: int) {
    0 <= i && i + |t| <= |s| && s[i..i + |t|] == t
  }

  /** `strings.Contains` */
  predicate Contains(s: string, t: string)
    ensures Contains(s, t) <==> exists i :: OccursAt(s, t, i)
  {
    ContainsUnrolls(s, t);
    t <= s || (s != [] && Contains(s[1..], t))
  }

  lemma ContainsUnrolls(s: string, t: string)
    ensures (exists i :: OccursAt(s, t, i)) <==> t <= s || (s != [] && exists i :: OccursAt(s[1..], t, i))
  {
    assert t <= s <==> OccursAt(s, t, 0);
    if s != [] {
      forall i | OccursAt(s[1..], t, i)
        ensures OccursAt(s, t, i + 1)
      {
        assert s[1..][i..i + |t|] == s[i + 1..i + 1 + |t|];
      }
      forall i | OccursAt(s, t, i) && i > 0
        ensures OccursAt(s[1..], t, i - 1)
      {
        assert s[1..][i - 1..i - 1 + |t|] == s[i..i + |t|];
      }
    }
  }

  // ----- white space -----

  /** `unicode.IsSpace` */
  predicate IsSpace(c: char) {
    var u := c as int;
    || 9 <= u <= 13 || u == 32 || u == 0x85 || u == 0xA0 || u == 0x1680
    || 0x2000 <= u <= 0x200A || u == 0x2028 || u == 0x2029 || u == 0x202F
    || u == 0x205F || u == 0x3000
  }

  /** Tab, line feed, vertical tab, form feed, carriage return and space; next line and no-break space;
      and the spaces of Unicode above them. */
  lemma SpacesAre(c: char)
    ensures IsSpace(c) <==>
            c in "\t\n\U{000B}\U{000C}\r \U{0085}\U{00A0}\U{1680}\U{2000}\U{2001}\U{2002}\U{2003}\U{2004}\U{2005}\U{2006}\U{2007}\U{2008}\U{2009}\U{200A}\U{2028}\U{2029}\U{202F}\U{205F}\U{3000}"
  {
  }

  /** The length of the leading run of characters that are not white space. */
  function WordLength(s: string): (n: nat)
    ensures n <= |s|
    ensures forall i :: 0 <= i < n ==> !IsSpace(s[i])
    ensures n < |s| ==> IsSpace(s[n])
  {
    if s == [] || IsSpace(s[0]) then 0 else 1 + WordLength(s[1..])
  }

  /** `strings.Fields` */
  function Fields(s: string): seq<string>
    decreases |s|
  {
    if s == [] then []
    else if IsSpace(s[0]) then Fields(s[1..])
    else [s[..WordLength(s)]] + Fields(s[WordLength(s)..])
  }

  /** The slice i..j of s is a word: not empty, without white space, and not extendable. */
  ghost predicate WordAt(s: string, i: int, j: int) {
    && 0 <= i < j <= |s|
    && (forall k :: i <= k < j ==> !IsSpace(s[k]))
    && (i > 0 ==> IsSpace(s[i - 1]))
    && (j < |s| ==> IsSpace(s[j]))
  }

  ghost predicate IsWordOf(s: string, t: string) {
    exists i, j :: WordAt(s, i, j) && s[i..j] == t
  }

  /** Where the words of s are, from position i on. */
  function Spans(s: string, i: nat): seq<(int, int)>
    requires i <= |s|
    decreases |s| - i
  {
    if i == |s| then []
    else if IsSpace(s[i]) then Spans(s, i + 1)
    else
      var j := i + WordLength(s[i..]);
      [(i, j)] + Spans(s, j)
  }

  ghost predicate AtSpans(s: string, fields: seq<string>, spans: seq<(int, int)>) {
    && |fields| == |spans|
    && forall k :: 0 <= k < |spans| ==> 0 <= spans[k].0 < spans[k].1 <= |s| && fields[k] == s[spans[k].0..spans[k].1]
  }

  /** The fields are the texts at the spans; the spans are the words of s, each once and in order. */
  ghost predicate ListsWords(s: string, fields: seq<string>, spans: seq<(int, int)>) {
    && AtSpans(s, fields, spans)
    && (forall a, b :: (a, b) in spans <==> WordAt(s, a, b))
    && (forall k, l :: 0 <= k < l < |spans| ==> spans[k].1 < spans[l].0)
  }

  /** No word crosses position i. */
  predicate IsCut(s: string, i: nat)
    requires i <= |s|
  {
    i == 0 || i == |s| || IsSpace(s[i - 1]) || IsSpace(s[i])
  }

  lemma WordFrom(s: string, i: nat)
    requires i < |s| && IsCut(s, i) && !IsSpace(s[i])
    ensures var j := i + WordLength(s[i..]);
            && i < j <= |s| && IsCut(s, j) && (j < |s| ==> IsSpace(s[j])) && WordAt(s, i, j)
            && forall a, b :: WordAt(s, a, b) && i <= a < j ==> a == i && b == j
  {
    var n := WordLength(s[i..]);
    var j := i + n;
    forall k | i <= k < j
      ensures !IsSpace(s[k])
    {
      assert s[k] == s[i..][k - i];
    }
    assert j < |s| ==> s[j] == s[i..][n];
    forall a, b | i < a < j
      ensures !WordAt(s, a, b)
    {
      assert !IsSpace(s[a - 1]);
    }
    forall b | i < b < j
      ensures !WordAt(s, i, b)
    {
      assert !IsSpace(s[b]);
    }
  }

  lemma SpansStartAfter(s: string, spans: seq<(int, int)>, j: nat)
    requires forall a, b :: (a, b) in spans ==> WordAt(s, a, b) && j <= a
    requires j < |s| ==> IsSpace(s[j])
    ensures forall k :: 0 <= k < |spans| ==> j < spans[k].0
  {
    forall k | 0 <= k < |spans|
      ensures j < spans[k].0
    {
      assert (spans[k].0, spans[k].1) in spans;
      assert WordAt(s, spans[k].0, spans[k].1);
    }
  }

  lemma {:induction false} SpansAreTheWords(s: string, i: nat)
    requires i <= |s| && IsCut(s, i)
    ensures forall a, b :: (a, b) in Spans(s, i) <==> WordAt(s, a, b) && i <= a
    decreases |s| - i
  {
    if i < |s| {
      if IsSpace(s[i]) {
        SpansAreTheWords(s, i + 1);
        assert forall b :: !WordAt(s, i, b);
      } else {
        WordFrom(s, i);
        SpansAreTheWords(s, i + WordLength(s[i..]));
      }
    }
  }

  lemma {:induction false} SpansAreInOrder(s: string, i: nat)
    requires i <= |s| && IsCut(s, i)
    ensures forall k, l :: 0 <= k < l < |Spans(s, i)| ==> Spans(s, i)[k].1 < Spans(s, i)[l].0
    decreases |s| - i
  {
    if i < |s| {
      if IsSpace(s[i]) {
        SpansAreInOrder(s, i + 1);
      } else {
        WordFrom(s, i);
        var j := i + WordLength(s[i..]);
        SpansAreInOrder(s, j);
        SpansAreTheWords(s, j);
        SpansStartAfter(s, Spans(s, j), j);
      }
    }
  }

  lemma AtSpansCons(s: string, fields: seq<string>, spans: seq<(int, int)>, a: int, b: int)
    requires AtSpans(s, fields, spans) && 0 <= a < b <= |s|
    ensures AtSpans(s, [s[a..b]] + fields, [(a, b)] + spans)
  {
  }

  lemma FieldsOfWord(s: string, i: nat)
    requires i < |s| && !IsSpace(s[i])
    ensures var j := i + WordLength(s[i..]);
            i < j <= |s| && Fields(s[i..]) == [s[i..j]] + Fields(s[j..])
  {
    var rest, n := s[i..], WordLength(s[i..]);
    assert rest[0] == s[i];
    assert rest[n..] == s[i + n..] && rest[..n] == s[i..i + n];
  }

  lemma FieldsOfSpace(s: string, i: nat)
    requires i < |s| && IsSpace(s[i])
    ensures Fields(s[i..]) == Fields(s[i + 1..])
  {
    assert s[i..][1..] == s[i + 1..];
  }

  lemma {:induction false} FieldsAtSpans(s: string, i: nat)
    requires i <= |s|
    ensures AtSpans(s, Fields(s[i..]), Spans(s, i))
    decreases |s| - i
  {
    if i < |s| {
      if IsSpace(s[i]) {
        FieldsOfSpace(s, i);
        FieldsAtSpans(s, i + 1);
      } else {
        FieldsOfWord(s, i);
        var j := i + WordLength(s[i..]);
        FieldsAtSpans(s, j);
        AtSpansCons(s, Fields(s[j..]), Spans(s, j), i, j);
      }
    }
  }

  /** `strings.Fields` returns the words of its argument, each once and in order. */
  lemma FieldsAreTheWords(s: string)
    ensures ListsWords(s, Fields(s), Spans(s, 0))
  {
    assert s[0..] == s;
    SpansAreTheWords(s, 0);
    SpansAreInOrder(s, 0);
    FieldsAtSpans(s, 0);
  }

  lemma FieldIffWord(s: string, t: string)
    ensures t in Fields(s) <==> IsWordOf(s, t)
  {
    var fields, spans := Fields(s), Spans(s, 0);
    FieldsAreTheWords(s);
    if k :| 0 <= k < |fields| && fields[k] == t {
      assert (spans[k].0, spans[k].1) in spans;
    }
    if i, j :| WordAt(s, i, j) && s[i..j] == t {
      var k :| 0 <= k < |spans| && spans[k] == (i, j);
      assert fields[k] == t;
    }
  }

  /** `strings.TrimSpace` */
  function TrimSpace(s: string): string
    decreases |s|
  {
    if s == [] then []
    else if IsSpace(s[0]) then TrimSpace(s[1..])
    else if IsSpace(s[|s| - 1]) then TrimSpace(s[..|s| - 1])
    else s
  }
}
