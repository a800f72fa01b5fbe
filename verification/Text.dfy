/** Character-level text: splitting on '/', joining, ordering, and number formatting. */
module Text {

  predicate HasSlash(s: string) { '/' in s }

  /** `str::split('/')`: always at least one piece. */
  function Split(s: string): (pieces: seq<string>)
    ensures |pieces| >= 1
  {
    if s == "" then [""]
    else
      var rest := Split(s[1..]);
      if s[0] == '/' then [""] + rest else [[s[0]] + rest[0]] + rest[1..]
  }

  /** Joining with '/' between the pieces. */
  function JoinSlash(pieces: seq<string>): string {
    if |pieces| == 0 then ""
    else if |pieces| == 1 then pieces[0]
    else pieces[0] + "/" + JoinSlash(pieces[1..])
  }

  lemma TailNoSlash(s: string)
    requires s != "" && !HasSlash(s)
    ensures !HasSlash(s[1..])
  {
    assert forall c :: c in s[1..] ==> c in s;
  }

  lemma {:induction false} SplitNoSlash(s: string)
    requires !HasSlash(s)
    ensures Split(s) == [s]
  {
    if s != "" {
      assert s == [s[0]] + s[1..];
      TailNoSlash(s);
      SplitNoSlash(s[1..]);
    }
  }

  lemma {:induction false} SplitFirst(head: string, tail: string)
    requires !HasSlash(head)
    ensures Split(head + "/" + tail) == [head] + Split(tail)
  {
    var s := head + "/" + tail;
    if head == "" {
      assert s[1..] == tail;
    } else {
      TailNoSlash(head);
      assert s[1..] == head[1..] + "/" + tail;
      SplitFirst(head[1..], tail);
      assert head == [head[0]] + head[1..];
      assert s[0] == head[0] && head[0] in head;
    }
  }

  /** Splitting undoes joining whenever no piece contains the separator. */
  lemma {:induction false} SplitJoin(pieces: seq<string>)
    requires |pieces| >= 1
    requires forall i :: 0 <= i < |pieces| ==> !HasSlash(pieces[i])
    ensures Split(JoinSlash(pieces)) == pieces
  {
    if |pieces| == 1 {
      SplitNoSlash(pieces[0]);
    } else {
      SplitFirst(pieces[0], JoinSlash(pieces[1..]));
      SplitJoin(pieces[1..]);
    }
  }

  // ---- lexicographic order, as `str` compares it ----

  predicate Less(a: string, b: string) {
    if b == "" then false
    else if a == "" then true
    else a[0] < b[0] || (a[0] == b[0] && Less(a[1..], b[1..]))
  }

  lemma {:induction false} LessPrefix(a: string, a': string, s: string, s': string)
    requires |a| == |a'|
    ensures Less(a + s, a' + s') <==> Less(a, a') || (a == a' && Less(s, s'))
  {
    if a == "" {
      assert a + s == s && a' + s' == s';
    } else {
      assert (a + s)[1..] == a[1..] + s && (a' + s')[1..] == a'[1..] + s';
      assert (a + s)[0] == a[0] && (a' + s')[0] == a'[0];
      assert a == [a[0]] + a[1..] && a' == [a'[0]] + a'[1..];
      LessPrefix(a[1..], a'[1..], s, s');
    }
  }

  // ---- numbers ----

  const DIGITS: string := "0123456789abcdef"

  function Digit(d: nat): char
    requires d < 16
  {
    DIGITS[d]
  }

  /** A number in the given base without padding. */
  function Numeral(n: nat, base: nat): (s: string)
    requires 2 <= base <= 16
    ensures |s| >= 1
  {
    if n < base then [Digit(n)] else Numeral(n / base, base) + [Digit(n % base)]
  }

  function Zeros(n: nat): (s: string)
    ensures |s| == n
    ensures forall i :: 0 <= i < n ==> s[i] == '0'
  {
    seq(n, _ => '0')
  }

  function PadTo(s: string, width: nat): string {
    if |s| < width then Zeros(width - |s|) + s else s
  }

  /** `{:0width}`: pads with zeros on the left, never truncates. */
  function Padded(n: nat, width: nat, base: nat): string
    requires 2 <= base <= 16
  {
    PadTo(Numeral(n, base), width)
  }

  lemma PadSnoc(s: string, d: char, width: nat)
    requires width >= 1
    ensures PadTo(s + [d], width) == PadTo(s, width - 1) + [d]
  {
    if |s| < width - 1 {
      assert Zeros(width - |s + [d]|) + (s + [d]) == Zeros(width - 1 - |s|) + s + [d];
    }
  }

  /** The number needs at most `width` digits. */
  predicate Fits(n: nat, width: nat, base: nat)
    requires 2 <= base <= 16
    decreases width
  {
    if width == 0 then n == 0 else Fits(n / base, width - 1, base)
  }

  /** Exactly `width` digits, the most significant first. */
  function FixedDigits(n: nat, width: nat, base: nat): (s: string)
    requires 2 <= base <= 16
    ensures |s| == width
  {
    if width == 0 then "" else FixedDigits(n / base, width - 1, base) + [Digit(n % base)]
  }

  lemma {:induction false} FixedZero(width: nat, base: nat)
    requires 2 <= base <= 16
    ensures FixedDigits(0, width, base) == Zeros(width)
  {
    if width > 0 {
      FixedZero(width - 1, base);
      assert Zeros(width) == Zeros(width - 1) + ['0'];
    }
  }

  lemma PaddedStep(n: nat, q: nat, width: nat, base: nat)
    requires 2 <= base <= 16 && base <= n && q == n / base && width >= 1
    requires Padded(q, width - 1, base) == FixedDigits(q, width - 1, base)
    ensures Padded(n, width, base) == FixedDigits(n, width, base)
  {
    PadSnoc(Numeral(q, base), Digit(n % base), width);
  }

  lemma PaddedDigit(n: nat, width: nat, base: nat)
    requires 2 <= base <= 16 && n < base && width >= 1
    ensures Padded(n, width, base) == FixedDigits(n, width, base)
  {
    SmallQuotient(n, base);
    FixedZero(width - 1, base);
    PadSnoc("", Digit(n), width);
    assert "" + [Digit(n)] == Numeral(n, base);
  }

  /** Padding produces exactly the fixed-width digits when the number fits. */
  lemma {:induction false} PaddedIsFixed(n: nat, width: nat, base: nat)
    requires 2 <= base <= 16 && width >= 1 && Fits(n, width, base)
    ensures Padded(n, width, base) == FixedDigits(n, width, base)
  {
    if n < base {
      PaddedDigit(n, width, base);
    } else {
      PositiveQuotient(n, base);
      PaddedIsFixed(n / base, width - 1, base);
      PaddedStep(n, n / base, width, base);
    }
  }

  lemma PositiveQuotient(n: nat, base: nat)
    requires 0 < base <= n
    ensures n / base >= 1
  {
    var q := n / base;
    assert n == q * base + n % base;
    assert q <= 0 ==> q * base <= 0;
  }

  lemma SmallQuotient(n: nat, base: nat)
    requires n < base
    ensures n / base == 0 && n % base == n
  {
  }

  /** Fixed-width decimal text sorts exactly as the numbers do. */
  lemma {:induction false} FixedOrder(n: nat, m: nat, width: nat)
    requires Fits(n, width, 10) && Fits(m, width, 10)
    ensures Less(FixedDigits(n, width, 10), FixedDigits(m, width, 10)) <==> n < m
    ensures FixedDigits(n, width, 10) == FixedDigits(m, width, 10) <==> n == m
  {
    if width > 0 {
      FixedOrder(n / 10, m / 10, width - 1);
      var a, b := FixedDigits(n / 10, width - 1, 10), FixedDigits(m / 10, width - 1, 10);
      var c, d := Digit(n % 10), Digit(m % 10);
      LessPrefix(a, b, [c], [d]);
      DigitOrder(n % 10, m % 10);
      assert (a + [c])[..width - 1] == a && (b + [d])[..width - 1] == b;
      assert (a + [c])[width - 1] == c && (b + [d])[width - 1] == d;
    }
  }

  lemma DigitOrder(c: nat, d: nat)
    requires c < 10 && d < 10
    ensures Digit(c) < Digit(d) <==> c < d
    ensures Digit(c) == Digit(d) <==> c == d
    ensures Less([Digit(c)], [Digit(d)]) <==> c < d
  {
    assert forall i :: 0 <= i < 10 ==> DIGITS[i] as int == '0' as int + i;
  }

  // ---- reading numbers back ----

  /** What a digit stands for, by its place in the character table. */
  function DigitValue(c: char): int {
    if '0' <= c <= '9' then c as int - '0' as int else c as int - 'a' as int + 10
  }

  /** The number a text of digits stands for, the most significant digit first. */
  function ValueOf(s: string, base: nat): int {
    if |s| == 0 then 0 else ValueOf(s[..|s| - 1], base) * base + DigitValue(s[|s| - 1])
  }

  lemma ValueSnoc(s: string, d: nat, base: nat)
    requires d < 16
    ensures ValueOf(s + [Digit(d)], base) == ValueOf(s, base) * base + d
  {
    assert (s + [Digit(d)])[..|s|] == s;
    assert forall i :: 0 <= i < 16 ==> DigitValue(DIGITS[i]) == i;
  }

  lemma {:induction false} NumeralValue(n: nat, base: nat)
    requires 2 <= base <= 16
    ensures ValueOf(Numeral(n, base), base) == n
  {
    if n < base {
      OneDigitValue(n, base);
    } else {
      var q, d := Divide(n, base);
      NumeralValue(q, base);
      NumeralMore(n, q, d, base);
    }
  }

  lemma Divide(n: nat, base: nat) returns (q: nat, d: nat)
    requires 2 <= base <= n
    ensures q == n / base && d == n % base && n == q * base + d && q < n && d < base
  {
    PositiveQuotient(n, base);
    q, d := n / base, n % base;
    assert q * base >= q * 2;
  }

  lemma OneDigitValue(d: nat, base: nat)
    requires d < 16
    ensures ValueOf([Digit(d)], base) == d
  {
    ValueSnoc("", d, base);
    assert "" + [Digit(d)] == [Digit(d)];
  }

  lemma NumeralMore(n: nat, q: nat, d: nat, base: nat)
    requires 2 <= base <= 16 && base <= n && q == n / base && d == n % base && n == q * base + d
    requires ValueOf(Numeral(q, base), base) == q
    ensures ValueOf(Numeral(n, base), base) == n
  {
    ValueSnoc(Numeral(q, base), d, base);
  }

  lemma {:induction false} LeadingZeros(k: nat, s: string, base: nat)
    ensures ValueOf(Zeros(k) + s, base) == ValueOf(s, base)
    decreases |s|, k
  {
    if |s| > 0 {
      assert (Zeros(k) + s)[..|Zeros(k) + s| - 1] == Zeros(k) + s[..|s| - 1];
      LeadingZeros(k, s[..|s| - 1], base);
    } else if k > 0 {
      assert (Zeros(k) + s)[..k - 1] == Zeros(k - 1) + s;
      LeadingZeros(k - 1, s, base);
    }
  }

  /** A padded number reads back as the number, and has at least the width asked for. */
  lemma PaddedValue(n: nat, width: nat, base: nat)
    requires 2 <= base <= 16
    ensures ValueOf(Padded(n, width, base), base) == n && |Padded(n, width, base)| >= width
  {
    NumeralValue(n, base);
    if |Numeral(n, base)| < width { LeadingZeros(width - |Numeral(n, base)|, Numeral(n, base), base); }
  }

  predicate IsHexDigit(c: char) { c in DIGITS }

  lemma {:induction false} FixedHex(n: nat, width: nat)
    ensures forall i :: 0 <= i < width ==> IsHexDigit(FixedDigits(n, width, 16)[i])
  {
    if width > 0 { FixedHex(n / 16, width - 1); }
  }

  lemma DigitInjective(c: nat, d: nat)
    requires c < 16 && d < 16 && Digit(c) == Digit(d)
    ensures c == d
  {
    assert forall i, j :: 0 <= i < j < 16 ==> DIGITS[i] != DIGITS[j];
  }

  lemma {:induction false} FixedHexInjective(n: nat, m: nat, width: nat)
    requires Fits(n, width, 16) && Fits(m, width, 16)
    requires FixedDigits(n, width, 16) == FixedDigits(m, width, 16)
    ensures n == m
  {
    if width > 0 {
      var a, b := FixedDigits(n / 16, width - 1, 16), FixedDigits(m / 16, width - 1, 16);
      assert (a + [Digit(n % 16)])[..width - 1] == a && (b + [Digit(m % 16)])[..width - 1] == b;
      assert (a + [Digit(n % 16)])[width - 1] == (b + [Digit(m % 16)])[width - 1];
      FixedHexInjective(n / 16, m / 16, width - 1);
      DigitInjective(n % 16, m % 16);
    }
  }
}
