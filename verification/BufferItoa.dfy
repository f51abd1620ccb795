/** connectors/jina/helpers.go, itoa: a decimal printer that fills a 20-byte buffer from its end. */
module BufferItoa {
  import opened Decimal

  function Pow10(n: nat): (p: nat)
    ensures p >= 1
  {
    if n == 0 then 1 else 10 * Pow10(n - 1)
  }

  /** What itoa prints: the decimal numeral, except for the one value whose negation overflows. */
  function Printed(n: int): string {
    if n == MIN_INT64 then "-" else FormatInt(n)
  }

  /** Negation in 64 bits: the minimum is its own negation. */
  function Negated(n: int): int { if n == MIN_INT64 then MIN_INT64 else -n }

  /** The numeral of what is left to print. */
  function Head(n: int): string { if n > 0 then Itoa(n) else "" }

  lemma HeadStep(n: nat, out: string, out': string)
    requires n > 0 && out' == [Digit(n % 10)] + out
    ensures Head(n) + out == Head(n / 10) + out'
  {
    assert Head(n) == Head(n / 10) + [Digit(n % 10)];
  }

  /** pos--; buf[pos] = c. */
  method PutBefore(buf: array<char>, pos0: nat, c: char, ghost out: string) returns (pos: nat)
    requires 0 < pos0 <= buf.Length && buf[pos0..] == out
    modifies buf
    ensures pos == pos0 - 1 && buf[pos..] == [c] + out
  {
    pos := pos0 - 1;
    buf[pos] := c;
    assert buf[pos..] == [c] + buf[pos0..];
  }

  /** `out` is the end of the numeral of n0, n its front; the front fits before position pos. */
  ghost predicate Filled(n0: int, n: int, pos: int, out: string) {
    pos >= 1 && n < Pow10(pos - 1) && Head(n0) == Head(n) + out
  }

  lemma FilledMore(n0: int, n: nat, pos: nat, out: string, out': string)
    requires Filled(n0, n, pos, out) && n > 0 && out' == [Digit(n % 10)] + out
    ensures pos > 1 && Filled(n0, n / 10, pos - 1, out')
  {
    PowStep(n, pos - 1);
    HeadStep(n, out, out');
  }

  /** Lines 40-44: the digits of n, last first, from the end of the buffer. Nothing happens for n <= 0. */
  method FillDigits(buf: array<char>, n0: int) returns (pos: nat)
    requires buf.Length >= 1 && n0 < Pow10(buf.Length - 1)
    modifies buf
    ensures 1 <= pos <= buf.Length && buf[pos..] == Head(n0)
  {
    var n := n0;
    pos := buf.Length;
    ghost var out := "";
    while n > 0
      invariant pos <= buf.Length && Filled(n0, n, pos, out) && buf[pos..] == out
    {
      ghost var out' := [Digit(n % 10)] + out;
      FilledMore(n0, n, pos, out, out');
      pos := PutBefore(buf, pos, Digit(n % 10), out);
      n, out := n / 10, out';
    }
  }

  lemma PowStep(n: nat, p: nat)
    requires 0 < n < Pow10(p)
    ensures p >= 1 && n / 10 < Pow10(p - 1)
  {
  }

  /** Every 64-bit number fits; the minimum prints as a lone sign. */
  method Print(n0: int) returns (s: string)
    requires MIN_INT64 <= n0 <= MAX_INT64
    ensures s == Printed(n0) && |s| <= 20
    ensures Reads(s, n0)
  {
    var n := n0;
    if n == 0 {
      PrintedReads(0);
      return "0";
    }
    var buf := new char[20];
    var pos := buf.Length;
    var neg := n < 0;
    if neg {
      n := Negated(n);
    }
    PrintedReads(n0);
    Pow10Of19();
    pos := FillDigits(buf, n);
    if neg {
      pos := PutBefore(buf, pos, '-', buf[pos..]);
    }
    s := buf[pos..];
  }

  /** The text is a lone sign for the minimum, and else a sign exactly for the negative numbers and then digits that
      denote the number's size. */
  predicate Reads(s: string, n: int) {
    if n == -0x8000_0000_0000_0000 then s == "-"
    else if n < 0 then |s| > 1 && s[0] == '-' && AllDigits(s[1..]) && Value(s[1..]) == -n
    else |s| > 0 && AllDigits(s) && Value(s) == n
  }

  lemma PrintedReads(n: int)
    ensures Reads(Printed(n), n)
  {
    if n < 0 {
      ValueOfItoa(-n);
      assert ("-" + Itoa(-n))[1..] == Itoa(-n);
    } else {
      ValueOfItoa(n);
    }
  }

  lemma Pow10Of19()
    ensures Pow10(19) == 10_000_000_000_000_000_000
  {
    assert Pow10(4) == 10_000;
    assert Pow10(8) == 100_000_000;
    assert Pow10(12) == 1_000_000_000_000;
    assert Pow10(16) == 10_000_000_000_000_000;
  }

  /** Parsing the printed text gives the number back exactly for all but the minimum. */
  lemma ParsesBack(n: int)
    requires MIN_INT64 <= n <= MAX_INT64
    ensures Atoi(Printed(n)).Some? <==> n != MIN_INT64
    ensures n != MIN_INT64 ==> Atoi(Printed(n)).value == n
  {
    if n != MIN_INT64 {
      AtoiOfFormatInt(n);
    } else {
      assert "-"[1..] == "";
    }
  }

  /** No leading zeros. */
  lemma NoLeadingZeros(n: int)
    requires MIN_INT64 < n <= MAX_INT64 && n != 0
    ensures Printed(n)[if n < 0 then 1 else 0] != '0'
  {
    ValueOfItoa(if n < 0 then -n else n);
  }
}
