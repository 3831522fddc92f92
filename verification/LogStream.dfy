/** Integer formatting into a fixed buffer (muduo/base/LogStream.cc, LogStream.h). */
module LogStreams {
  import opened Arithmetic

  const DIGITS := "9876543210123456789"
  const MAX_NUMERIC_SIZE := 48

  // ---------- decimal numerals ----------

  function Abs(v: int): nat {
    if v < 0 then -v else v
  }

  predicate IsDigit(c: char) {
    '0' <= c <= '9'
  }

  function DigitOf(d: int): char
    requires 0 <= d < 10
  {
    ('0' as int + d) as char
  }

  /** The digits of m, least significant first. */
  function LowFirst(m: nat): (s: string)
    ensures |s| > 0
  {
    if m < 10 then [DigitOf(m)] else [DigitOf(m % 10)] + LowFirst(m / 10)
  }

  function Reverse(s: string): (r: string)
    ensures |r| == |s| && forall i :: 0 <= i < |s| ==> r[i] == s[|s| - 1 - i]
  {
    if s == [] then [] else Reverse(s[1..]) + [s[0]]
  }

  /** What convert writes: the digits, low first, then the sign, all reversed. */
  function Decimal(v: int): string {
    Reverse(LowFirst(Abs(v)) + if v < 0 then "-" else "")
  }

  /** The independent reading of a numeral: Horner's rule from the left. */
  function Value(s: string): int {
    if s != [] && s[0] == '-' then -Magnitude(s[1..]) else Magnitude(s)
  }

  function Magnitude(s: string): int {
    if s == [] then 0 else Magnitude(s[..|s| - 1]) * 10 + (s[|s| - 1] as int - '0' as int)
  }

  /** No superfluous zero, no sign on zero. */
  predicate Canonical(s: string) {
    if s != [] && s[0] == '-' then CanonicalDigits(s[1..]) && s[1] != '0' else CanonicalDigits(s)
  }

  predicate CanonicalDigits(s: string) {
    s != [] && (forall i :: 0 <= i < |s| ==> IsDigit(s[i])) && (s[0] == '0' ==> |s| == 1)
  }

  /** The digits of m, most significant first. */
  function HighFirst(m: nat): (s: string)
    ensures |s| > 0
  {
    if m < 10 then [DigitOf(m)] else HighFirst(m / 10) + [DigitOf(m % 10)]
  }

  lemma ReverseAppend(s: string, c: char)
    ensures Reverse(s + [c]) == [c] + Reverse(s)
  {
  }

  lemma {:induction false} LowFirstReversed(m: nat)
    ensures Reverse(LowFirst(m)) == HighFirst(m)
  {
    if m >= 10 {
      LowFirstReversed(m / 10);
      assert LowFirst(m)[1..] == LowFirst(m / 10);
    }
  }

  lemma DecimalShape(v: int)
    ensures Decimal(v) == (if v < 0 then "-" else "") + HighFirst(Abs(v))
  {
    LowFirstReversed(Abs(v));
    if v < 0 {
      ReverseAppend(LowFirst(Abs(v)), '-');
    } else {
      assert LowFirst(Abs(v)) + "" == LowFirst(Abs(v));
    }
  }

  lemma {:induction false} HighFirstValue(m: nat)
    ensures Magnitude(HighFirst(m)) == m && CanonicalDigits(HighFirst(m)) && (HighFirst(m)[0] == '0' ==> m == 0)
  {
    if m >= 10 {
      HighFirstValue(m / 10);
      assert HighFirst(m)[..|HighFirst(m)| - 1] == HighFirst(m / 10);
    } else {
      assert Magnitude(HighFirst(m)[..0]) == 0;
    }
  }

  lemma {:induction false} DigitsUnique(s: string)
    requires CanonicalDigits(s)
    ensures Magnitude(s) >= 0 && HighFirst(Magnitude(s)) == s && (Magnitude(s) == 0 ==> s == "0")
    decreases |s|
  {
    var n := |s| - 1;
    assert IsDigit(s[n]);
    if n > 0 {
      DigitsUnique(s[..n]);
      assert s == s[..n] + [s[n]];
      assert Magnitude(s) / 10 == Magnitude(s[..n]);
    } else {
      assert s[..0] == "";
    }
  }

  /** convert yields the value's canonical numeral... */
  lemma DecimalIsCanonical(v: int)
    ensures Canonical(Decimal(v)) && Value(Decimal(v)) == v
  {
    DecimalShape(v);
    HighFirstValue(Abs(v));
    if v < 0 {
      assert Decimal(v)[1..] == HighFirst(Abs(v));
    } else {
      assert Decimal(v) == HighFirst(v);
      assert IsDigit(Decimal(v)[0]);
    }
  }

  /** ...and there is no other. */
  lemma DecimalIsUnique(s: string)
    requires Canonical(s)
    ensures s == Decimal(Value(s))
  {
    DecimalShape(Value(s));
    if s != [] && s[0] == '-' {
      DigitsUnique(s[1..]);
      assert s == "-" + s[1..];
    } else {
      DigitsUnique(s);
    }
  }

  function Pow10(k: nat): nat {
    if k == 0 then 1 else 10 * Pow10(k - 1)
  }

  lemma {:induction false} LowFirstLength(m: nat, k: nat)
    requires m < Pow10(k) && k > 0
    ensures |LowFirst(m)| <= k
    decreases k
  {
    if m >= 10 {
      LowFirstLength(m / 10, k - 1);
    }
  }

  /** Every 64-bit value, signed or unsigned, fits with its NUL in the space formatInteger checks for. */
  lemma DecimalFits(v: int)
    requires -0x8000_0000_0000_0000 <= v < 0x1_0000_0000_0000_0000
    ensures |Decimal(v)| + 1 <= 22 <= MAX_NUMERIC_SIZE
  {
    assert Pow10(5) == 100000;
    assert Pow10(10) == 100000 * Pow10(5) by { Pow10Splits(5, 5); }
    assert Pow10(20) == Pow10(10) * Pow10(10) by { Pow10Splits(10, 10); }
    LowFirstLength(Abs(v), 20);
  }

  lemma {:induction false} Pow10Splits(a: nat, b: nat)
    ensures Pow10(a + b) == Pow10(a) * Pow10(b)
    decreases a
  {
    if a > 0 {
      Pow10Splits(a - 1, b);
    }
  }

  // ---------- the code ----------

  /** The digit character of a truncated remainder of either sign, through the two-sided table. */
  lemma TwoSidedTable(i: int)
    ensures var lsd := TruncMod(i, 10);
            -9 <= lsd <= 9 && DIGITS[9 + lsd] == DigitOf(Abs(i) % 10) && Abs(TruncDiv(i, 10)) == Abs(i) / 10
  {
  }

  method ReverseInPlace(buf: array<char>, lo: nat, hi: nat)
    requires lo <= hi <= buf.Length
    modifies buf
    ensures buf[lo..hi] == Reverse(old(buf[lo..hi]))
    ensures buf[..lo] == old(buf[..lo]) && buf[hi..] == old(buf[hi..])
  {
    forall k | lo <= k < hi {
      buf[k] := buf[lo + hi - 1 - k];
    }
  }

  /** One turn of the digit loop: the last digit goes behind those already written. */
  lemma DigitStep(written: string, i: int)
    ensures var rest := TruncDiv(i, 10); var d := DIGITS[9 + TruncMod(i, 10)];
            written + LowFirst(Abs(i)) == written + [d] + if rest == 0 then [] else LowFirst(Abs(rest))
  {
    TwoSidedTable(i);
    hide TruncDiv, TruncMod;
  }

  /** The digit loop of convert. */
  method WriteDigits(buf: array<char>, at: nat, value: int) returns (p: nat)
    requires at + |LowFirst(Abs(value))| <= buf.Length
    modifies buf
    ensures p == at + |LowFirst(Abs(value))| && buf[at..p] == LowFirst(Abs(value)) && buf[..at] == old(buf[..at])
  {
    hide LowFirst, TruncDiv, TruncMod, DigitOf;
    ghost var digits, written := LowFirst(Abs(value)), "";
    var i := value;
    p := at;
    var first := true;
    while first || i != 0
      invariant at <= p <= at + |digits| && buf[at..p] == written && buf[..at] == old(buf[..at])
      invariant digits == written + if first || i != 0 then LowFirst(Abs(i)) else ""
      decreases first, Abs(i)
    {
      TwoSidedTable(i);
      DigitStep(written, i);
      var lsd := TruncMod(i, 10);
      i := TruncDiv(i, 10);
      buf[p] := DIGITS[9 + lsd];
      p := p + 1;
      first := false;
      written := written + [DIGITS[9 + lsd]];
    }
  }

  method Convert(buf: array<char>, at: nat, value: int) returns (n: nat)
    requires at + |Decimal(value)| < buf.Length
    modifies buf
    ensures n == |Decimal(value)| && buf[at..at + n] == Decimal(value) && buf[at + n] == '\0'
    ensures buf[..at] == old(buf[..at])
  {
    hide LowFirst, Reverse;
    var p := WriteDigits(buf, at, value);
    if value < 0 {
      buf[p] := '-';
      p := p + 1;
    }
    buf[p] := '\0';
    assert buf[at..p] == LowFirst(Abs(value)) + if value < 0 then "-" else "";
    ReverseInPlace(buf, at, p);
    assert buf[p] == buf[p..][0];
    n := p - at;
  }

  /** FixedBuffer<SIZE>: bytes are only ever added behind `cur`. */
  class FixedBuffer {
    const data: array<char>
    var cur: nat

    ghost predicate Valid()
      reads this
    {
      cur <= data.Length
    }

    function Contents(): string
      requires Valid()
      reads this, data
    {
      data[..cur]
    }

    function Avail(): nat
      requires Valid()
      reads this
    {
      data.Length - cur
    }

    constructor (size: nat)
      ensures Valid() && Contents() == "" && data.Length == size && fresh(data)
    {
      data := new char[size];
      cur := 0;
    }

    method Append(s: string)
      requires Valid()
      modifies this, data
      ensures Valid() && Contents() == if old(Avail()) > |s| then old(Contents()) + s else old(Contents())
    {
      if Avail() > |s| {
        forall k | cur <= k < cur + |s| {
          data[k] := s[k - cur];
        }
        cur := cur + |s|;
      }
    }

    method Reset()
      requires Valid()
      modifies this
      ensures Valid() && Contents() == ""
    {
      cur := 0;
    }

    /** LogStream::formatInteger, for every integer width the stream accepts. */
    method FormatInteger(v: int)
      requires Valid() && -0x8000_0000_0000_0000 <= v < 0x1_0000_0000_0000_0000
      modifies this, data
      ensures Valid()
      ensures Contents() == if old(Avail()) >= MAX_NUMERIC_SIZE then old(Contents()) + Decimal(v) else old(Contents())
    {
      hide Decimal;
      if Avail() >= MAX_NUMERIC_SIZE {
        DecimalFits(v);
        var len := Convert(data, cur, v);
        cur := cur + len;
      }
    }
  }
}
