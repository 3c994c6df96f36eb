/** 256-bit integers in the binary NUMERIC format of PostgreSQL: base-10000 digits, most significant first,
    and a weight that counts the digits before the decimal point, minus one. */
module PgNumeric {
  import opened Sequences
  import opened Bytes
  import opened MerklePath

  const ELEMENT_LIMIT: nat := 0x1_0000_0000_0000_0000_0000_0000_0000_0000_0000_0000_0000_0000_0000_0000_0000_0000

  type Decimal = d: nat | d < 10

  type Digit = d: nat | d < 10000

  /** The decimal digits of a number as it is printed: no leading zeros, and one digit for zero. */
  function Printed(n: nat): (s: seq<Decimal>)
    ensures |s| >= 1
  {
    if n < 10 then [n] else Printed(n / 10) + [n % 10]
  }

  function Parsed(s: seq<Decimal>): nat {
    if s == [] then 0 else Parsed(s[..|s| - 1]) * 10 + s[|s| - 1]
  }

  lemma {:induction false} ParsedPrinted(n: nat)
    ensures Parsed(Printed(n)) == n
  {
    if n >= 10 {
      ParsedPrinted(n / 10);
      assert Printed(n)[..|Printed(n)| - 1] == Printed(n / 10);
    }
  }

  /** The base-10000 digits of a number, most significant first, without leading zeros. */
  function Digits(n: nat): (digits: seq<Digit>)
    ensures |digits| >= 1
  {
    if n < 10000 then [n] else Digits(n / 10000) + [n % 10000]
  }

  function Value(digits: seq<nat>): nat {
    if digits == [] then 0 else Value(digits[..|digits| - 1]) * 10000 + digits[|digits| - 1]
  }

  function Pow10000(k: nat): (r: nat)
    ensures r > 0
  {
    if k == 0 then 1 else 10000 * Pow10000(k - 1)
  }

  lemma {:induction false} ValueOfDigits(n: nat)
    ensures Value(Digits(n)) == n
    ensures n > 0 ==> Digits(n)[0] > 0
  {
    if n >= 10000 {
      ValueOfDigits(n / 10000);
      assert Digits(n)[..|Digits(n)| - 1] == Digits(n / 10000);
    } else {
      assert Digits(n)[..0] == [];
    }
  }

  lemma {:induction false} DigitCount(n: nat, k: nat)
    requires k > 0 && n < Pow10000(k)
    ensures |Digits(n)| <= k
  {
    if n >= 10000 {
      assert k > 1 by {
        assert Pow10000(1) == 10000 * Pow10000(0);
      }
      DigitCount(n / 10000, k - 1);
    }
  }

  lemma LastDecimal(n: nat) returns (high: nat, last: Decimal)
    requires n >= 10
    ensures n == high * 10 + last && Printed(n) == Printed(high) + [last]
  {
    high, last := n / 10, n % 10;
  }

  lemma SplitUnique(n: nat, high: nat, low: nat, top: nat, rest: nat)
    requires n == high * 10000 + low && n == top * 10000 + rest && low < 10000 && rest < 10000
    ensures high == top && low == rest
  {
  }

  lemma TailSlices<T>(front: seq<T>, p: T, q: T, r: T, s: T)
    ensures var all := front + [p] + [q] + [r] + [s];
            |all| == |front| + 4 && all[..|front|] == front && all[|front|..] == [p, q, r, s]
  {
  }

  /** Printing a number of five or more decimals ends in the four decimals of its lowest base-10000 digit. */
  lemma PrintedSplit(n: nat, high: nat, low: nat)
    requires n >= 10000 && n == high * 10000 + low && low < 10000
    ensures |Printed(n)| > 4
    ensures var cut := |Printed(n)| - 4; Printed(n)[..cut] == Printed(high) && Parsed(Printed(n)[cut..]) == low
  {
    var a, s := LastDecimal(n);
    var b, r := LastDecimal(a);
    var c, q := LastDecimal(b);
    var d, p := LastDecimal(c);
    ParsedFour(p, q, r, s);
    SplitUnique(n, high, low, d, Parsed([p, q, r, s]));
    TailSlices(Printed(d), p, q, r, s);
  }

  lemma ParsedFour(p: Decimal, q: Decimal, r: Decimal, s: Decimal)
    ensures Parsed([p, q, r, s]) == p * 1000 + q * 100 + r * 10 + s
  {
    assert [p][..0] == [] && Parsed([p]) == p;
    assert [p, q][..1] == [p] && Parsed([p, q]) == p * 10 + q;
    assert [p, q, r][..2] == [p, q] && Parsed([p, q, r]) == p * 100 + q * 10 + r;
    assert [p, q, r, s][..3] == [p, q, r];
  }

  lemma PrintedShort(n: nat)
    requires n < 10000
    ensures |Printed(n)| <= 4
  {
    var a, b, c := n / 10, n / 10 / 10, n / 10 / 10 / 10;
    assert c < 10 && |Printed(c)| == 1;
    assert |Printed(b)| <= 2 && |Printed(a)| <= 3;
  }

  lemma OneMoreDigit(all: seq<Digit>, n: nat, collected: seq<Digit>, digit: Digit)
    requires all == Digits(n) + Reversed(collected)
    requires n >= 10000 && digit == n % 10000
    ensures all == Digits(n / 10000) + Reversed(collected + [digit])
  {
    assert Reversed(collected + [digit]) == [digit] + Reversed(collected);
  }

  /** Peels four decimals at a time off the printed number and reverses what was collected. */
  method CollectDigits(n: nat) returns (digits: seq<Digit>)
    ensures digits == Digits(n)
  {
    var remaining := Printed(n);
    var collected: seq<Digit> := [];
    ghost var rest := n;
    while |remaining| > 4
      invariant remaining == Printed(rest)
      invariant Digits(n) == Digits(rest) + Reversed(collected)
      decreases |remaining|
    {
      if rest < 10000 {
        PrintedShort(rest);
        assert false;
      }
      PrintedSplit(rest, rest / 10000, rest % 10000);
      var cut := |remaining| - 4;
      var digit := Parsed(remaining[cut..]);
      OneMoreDigit(Digits(n), rest, collected, digit);
      collected := collected + [digit];
      remaining := remaining[..cut];
      rest := rest / 10000;
    }
    if rest >= 10000 {
      PrintedSplit(rest, rest / 10000, rest % 10000);
      assert false;
    }
    ParsedPrinted(rest);
    var digit := Parsed(remaining);
    assert Reversed(collected + [digit]) == [digit] + Reversed(collected);
    collected := collected + [digit];
    digits := Reversed(collected);
  }

  // ---- the wire format ----

  const U16_LIMIT: nat := 0x1_0000

  function U16(n: nat): (bytes: seq<byte>)
    requires n < U16_LIMIT
    ensures |bytes| == 2
  {
    [n / 256, n % 256]
  }

  function U16At(bytes: seq<byte>, i: nat): nat
    requires i + 2 <= |bytes|
  {
    var high: nat := bytes[i];
    high * 256 + bytes[i + 1]
  }

  function I16At(bytes: seq<byte>, i: nat): int
    requires i + 2 <= |bytes|
  {
    var n := U16At(bytes, i);
    if n < 0x8000 then n else n - 0x1_0000
  }

  function DigitBytes(digits: seq<Digit>): (bytes: seq<byte>)
    ensures |bytes| == 2 * |digits|
  {
    if digits == [] then [] else DigitBytes(digits[..|digits| - 1]) + U16(digits[|digits| - 1])
  }

  /** Digit count, weight, sign and scale, then the digits. */
  function NumericBytes(digits: seq<Digit>, weight: nat): seq<byte>
    requires |digits| < U16_LIMIT && weight < U16_LIMIT
  {
    U16(|digits|) + U16(weight) + [0, 0] + [0, 0] + DigitBytes(digits)
  }

  method ToSql(n: Element) returns (bytes: seq<byte>)
    ensures |Digits(n)| <= 20
    ensures bytes == NumericBytes(Digits(n), |Digits(n)| - 1)
  {
    var digits := CollectDigits(n);
    ElementDigits(n);
    bytes := U16(|digits|) + U16(|digits| - 1) + [0, 0] + [0, 0];
    ghost var header := bytes;
    for i := 0 to |digits|
      invariant bytes == header + DigitBytes(digits[..i])
    {
      assert digits[..i + 1][..i] == digits[..i];
      bytes := bytes + U16(digits[i]);
    }
    assert digits[..|digits|] == digits;
  }

  /** The bytes of 12345: two digits, weight one, no sign and no scale, and the digits 1 and 2345, each number in two bytes
      with the more significant one first. */
  lemma BytesOf12345()
    ensures Digits(12345) == [1, 2345]
    ensures NumericBytes(Digits(12345), 1) == [0, 2] + [0, 1] + [0, 0] + [0, 0] + [0, 1] + [9, 41]
  {
    var digits: seq<Digit> := [1, 2345];
    assert Digits(12345) == Digits(1) + [2345] && Digits(1) == [1];
    assert digits[..1] == [1] && digits[..1][..0] == [];
    assert DigitBytes(digits[..1]) == DigitBytes([]) + U16(1);
  }

  lemma PowTwenty()
    ensures Pow10000(19) < ELEMENT_LIMIT < Pow10000(20)
  {
    assert Pow10000(5) == 100_000_000_000_000_000_000;
    assert Pow10000(10) == 100_000_000_000_000_000_000 * 100_000_000_000_000_000_000 by {
      assert Pow10000(10) == 10000 * (10000 * (10000 * (10000 * (10000 * Pow10000(5)))));
    }
    assert Pow10000(15) == 10000 * (10000 * (10000 * (10000 * (10000 * Pow10000(10)))));
    assert Pow10000(19) == 10000 * (10000 * (10000 * (10000 * Pow10000(15))));
    assert Pow10000(20) == 10000 * Pow10000(19);
  }

  lemma ElementDigits(n: Element)
    ensures |Digits(n)| <= 20
  {
    PowTwenty();
    DigitCount(n, 20);
  }

  /** `Overflow` stands for an intermediate result that does not fit 256 bits. */
  datatype Read = Value(value: Element) | Rejected | Overflow

  /** Adds the digits from `i` on to what was read so far. */
  function ReadDigits(bytes: seq<byte>, i: nat, count: nat, sofar: nat): Read
    requires i <= count
    requires sofar < ELEMENT_LIMIT
    decreases count - i
  {
    if i == count then Read.Value(sofar)
    else if 8 + 2 * i + 2 > |bytes| then Rejected
    else
      var next := sofar * 10000 + U16At(bytes, 8 + 2 * i);
      if next >= ELEMENT_LIMIT then Overflow else ReadDigits(bytes, i + 1, count, next)
  }

  /** Appends the digits the weight says are missing at the end, all of them zero. */
  function Scaled(value: Element, missing: int): Read {
    if missing <= 0 then Read.Value(value)
    else if Pow10000(missing) >= ELEMENT_LIMIT || value * Pow10000(missing) >= ELEMENT_LIMIT then Overflow
    else Read.Value(value * Pow10000(missing))
  }

  function ReadNumeric(bytes: seq<byte>): Read {
    if |bytes| < 8 then Rejected
    else
      var count, weight, sign := U16At(bytes, 0), I16At(bytes, 2), U16At(bytes, 4);
      if sign != 0 then Rejected
      else
        var read := ReadDigits(bytes, 0, count, 0);
        if read.Value? then Scaled(read.value, weight - count + 1) else read
  }

  method FromSql(bytes: seq<byte>) returns (r: Read)
    ensures r == ReadNumeric(bytes)
  {
    if |bytes| < 8 {
      return Rejected;
    }
    var count, weight, sign := U16At(bytes, 0), I16At(bytes, 2), U16At(bytes, 4);
    if sign != 0 {
      return Rejected;
    }
    var result: nat := 0;
    for i := 0 to count
      invariant result < ELEMENT_LIMIT
      invariant ReadDigits(bytes, 0, count, 0) == ReadDigits(bytes, i, count, result)
    {
      var start := 8 + 2 * i;
      if start + 2 > |bytes| {
        return Rejected;
      }
      result := result * 10000 + U16At(bytes, start);
      if result >= ELEMENT_LIMIT {
        return Overflow;
      }
    }
    r := Scaled(result, weight - count + 1);
  }

  // ---- round trip ----

  lemma {:induction false} DigitBytesAt(digits: seq<Digit>, i: nat)
    requires i < |digits|
    ensures DigitBytes(digits)[2 * i..2 * i + 2] == U16(digits[i])
  {
    var last := |digits| - 1;
    if i < last {
      DigitBytesAt(digits[..last], i);
      assert DigitBytes(digits)[..2 * last] == DigitBytes(digits[..last]);
      assert DigitBytes(digits)[2 * i..2 * i + 2] == DigitBytes(digits)[..2 * last][2 * i..2 * i + 2];
    }
  }

  lemma {:induction false} PrefixValue(digits: seq<Digit>, i: nat)
    requires i <= |digits|
    ensures Value(digits[..i]) <= Value(digits)
    decreases |digits|
  {
    if i < |digits| {
      var last := |digits| - 1;
      PrefixValue(digits[..last], i);
      assert digits[..last][..i] == digits[..i];
    } else {
      assert digits[..i] == digits;
    }
  }

  /** Reading digits gives their value, or an overflow exactly when that value does not fit. */
  lemma {:induction false} ReadsDigits(bytes: seq<byte>, digits: seq<Digit>, i: nat)
    requires i <= |digits|
    requires |bytes| >= 8 + 2 * |digits| && bytes[8..8 + 2 * |digits|] == DigitBytes(digits)
    requires Value(digits[..i]) < ELEMENT_LIMIT
    ensures ReadDigits(bytes, i, |digits|, Value(digits[..i]))
         == if Value(digits) < ELEMENT_LIMIT then Read.Value(Value(digits)) else Overflow
    decreases |digits| - i
  {
    if i == |digits| {
      assert digits[..i] == digits;
    } else {
      DigitBytesAt(digits, i);
      var body := bytes[8..8 + 2 * |digits|];
      assert bytes[8 + 2 * i] == body[2 * i] == U16(digits[i])[0] by {
        assert body[2 * i..2 * i + 2][0] == body[2 * i];
      }
      assert bytes[8 + 2 * i + 1] == body[2 * i + 1] == U16(digits[i])[1] by {
        assert body[2 * i..2 * i + 2][1] == body[2 * i + 1];
      }
      assert U16At(bytes, 8 + 2 * i) == digits[i];
      assert digits[..i + 1][..i] == digits[..i];
      PrefixValue(digits, i + 1);
      if Value(digits[..i + 1]) < ELEMENT_LIMIT {
        ReadsDigits(bytes, digits, i + 1);
      }
    }
  }

  lemma ReadsU16(bytes: seq<byte>, i: nat, n: nat)
    requires n < U16_LIMIT && i + 2 <= |bytes| && bytes[i..i + 2] == U16(n)
    ensures U16At(bytes, i) == n
    ensures n < 0x8000 ==> I16At(bytes, i) == n
  {
    assert bytes[i] == bytes[i..i + 2][0] == n / 256 && bytes[i + 1] == bytes[i..i + 2][1] == n % 256;
  }

  lemma HeaderSlices(count: seq<byte>, weight: seq<byte>, body: seq<byte>)
    requires |count| == |weight| == 2
    ensures var bytes := count + weight + [0, 0] + [0, 0] + body;
            && |bytes| == 8 + |body| && bytes[8..] == body
            && bytes[0..2] == count && bytes[2..4] == weight && bytes[4..6] == [0, 0]
  {
  }

  lemma NumericHeader(digits: seq<Digit>, weight: nat)
    requires |digits| < U16_LIMIT && weight < 0x8000
    ensures var bytes := NumericBytes(digits, weight);
            && |bytes| == 8 + 2 * |digits| && bytes[8..8 + 2 * |digits|] == DigitBytes(digits)
            && U16At(bytes, 0) == |digits| && I16At(bytes, 2) == weight && U16At(bytes, 4) == 0
  {
    var bytes := NumericBytes(digits, weight);
    HeaderSlices(U16(|digits|), U16(weight), DigitBytes(digits));
    assert bytes[8..8 + 2 * |digits|] == bytes[8..];
    ReadsU16(bytes, 0, |digits|);
    ReadsU16(bytes, 2, weight);
    ReadsU16(bytes, 4, 0);
  }

  lemma ReadsBody(bytes: seq<byte>, digits: seq<Digit>, weight: nat)
    requires |bytes| == 8 + 2 * |digits| && bytes[8..8 + 2 * |digits|] == DigitBytes(digits)
    requires U16At(bytes, 0) == |digits| && I16At(bytes, 2) == weight && U16At(bytes, 4) == 0
    ensures ReadNumeric(bytes)
         == if Value(digits) < ELEMENT_LIMIT then Scaled(Value(digits), weight - |digits| + 1) else Overflow
  {
    assert digits[..0] == [] && Value([]) == 0;
    ReadsDigits(bytes, digits, 0);
  }

  lemma ReadsScaled(digits: seq<Digit>, weight: nat)
    requires |digits| < U16_LIMIT && weight < 0x8000
    ensures ReadNumeric(NumericBytes(digits, weight))
         == if Value(digits) < ELEMENT_LIMIT then Scaled(Value(digits), weight - |digits| + 1) else Overflow
  {
    NumericHeader(digits, weight);
    ReadsBody(NumericBytes(digits, weight), digits, weight);
  }

  lemma {:induction false} DigitsFit(bytes: seq<byte>, i: nat, count: nat, sofar: nat)
    requires i <= count && sofar < ELEMENT_LIMIT
    ensures |bytes| >= 8 + 2 * count ==> !ReadDigits(bytes, i, count, sofar).Rejected?
    ensures i < count && |bytes| < 8 + 2 * count ==> !ReadDigits(bytes, i, count, sofar).Value?
    decreases count - i
  {
    if i < count && 8 + 2 * i + 2 <= |bytes| {
      var next := sofar * 10000 + U16At(bytes, 8 + 2 * i);
      if next < ELEMENT_LIMIT {
        DigitsFit(bytes, i + 1, count, next);
      }
    }
  }

  /** Which bytes are no number: fewer than a header, a sign, or fewer digits than announced, unless the digits that are
      there are too many already. */
  lemma RejectsIff(bytes: seq<byte>)
    ensures |bytes| < 8 || U16At(bytes, 4) != 0 ==> ReadNumeric(bytes).Rejected?
    ensures |bytes| >= 8 && U16At(bytes, 4) == 0 ==>
              && (|bytes| >= 8 + 2 * U16At(bytes, 0) ==> !ReadNumeric(bytes).Rejected?)
              && (|bytes| < 8 + 2 * U16At(bytes, 0) ==> !ReadNumeric(bytes).Value?)
  {
    if |bytes| >= 8 {
      DigitsFit(bytes, 0, U16At(bytes, 0), 0);
    }
  }

  /** What is read from any well-formed non-negative integer: its digits' value followed by the zero digits that
      the weight adds; an overflow exactly when the digits' value, the power of 10000 that the zero digits stand for,
      or the product does not fit 256 bits. */
  lemma ReadsNumeric(digits: seq<Digit>, weight: nat)
    requires |digits| < U16_LIMIT && weight < 0x8000
    ensures var value, power := Value(digits), if weight >= |digits| then Pow10000(weight - |digits| + 1) else 1;
            ReadNumeric(NumericBytes(digits, weight))
            == if value < ELEMENT_LIMIT && power < ELEMENT_LIMIT && value * power < ELEMENT_LIMIT then Read.Value(value * power)
               else Overflow
  {
    ReadsScaled(digits, weight);
  }

  lemma ShiftedValue(v: nat, p: nat, front: nat)
    requires v * p == front
    ensures v * (10000 * p) == front * 10000
  {
  }

  /** Dropping zero digits at the end divides by the matching power. */
  lemma {:induction false} StrippedValue(digits: seq<Digit>, k: nat)
    requires k <= |digits|
    requires forall i | |digits| - k <= i < |digits| :: digits[i] == 0
    ensures Value(digits[..|digits| - k]) * Pow10000(k) == Value(digits)
  {
    if k == 0 {
      assert digits[..|digits|] == digits;
    } else {
      var last := |digits| - 1;
      var front := digits[..last];
      StrippedValue(front, k - 1);
      assert front[..|front| - (k - 1)] == digits[..|digits| - k];
      ShiftedValue(Value(digits[..|digits| - k]), Pow10000(k - 1), Value(front));
    }
  }

  lemma {:induction false} PowMonotone(a: nat, b: nat)
    requires a <= b
    ensures Pow10000(a) <= Pow10000(b)
    decreases b
  {
    if a < b {
      PowMonotone(a, b - 1);
    }
  }

  lemma ScaledExactly(value: Element, k: nat, n: Element)
    requires k <= 19 && value * Pow10000(k) == n
    ensures Scaled(value, k) == Read.Value(n)
  {
    if k > 0 {
      FittingPower(k);
    }
  }

  lemma FittingPower(k: nat)
    requires k <= 19
    ensures Pow10000(k) < ELEMENT_LIMIT
  {
    PowMonotone(k, 19);
    PowTwenty();
  }

  /** At most 19 of the digits of an element can be dropped, unless it is zero and has one. */
  lemma StrippedCount(n: Element, k: nat)
    requires k <= |Digits(n)|
    requires forall i | |Digits(n)| - k <= i < |Digits(n)| :: Digits(n)[i] == 0
    ensures k <= 19 && Value(Digits(n)[..|Digits(n)| - k]) <= n
    ensures Value(Digits(n)[..|Digits(n)| - k]) * Pow10000(k) == n
  {
    ElementDigits(n);
    ValueOfDigits(n);
    StrippedValue(Digits(n), k);
    if k == |Digits(n)| {
      assert Digits(n)[0] == 0;
      assert n == 0 && |Digits(0)| == 1;
    }
    Dominates(Value(Digits(n)[..|Digits(n)| - k]), Pow10000(k));
  }

  lemma Dominates(a: nat, b: nat)
    requires b > 0
    ensures a <= a * b
  {
  }

  lemma ReadsStripped(kept: seq<Digit>, k: nat, n: Element)
    requires k <= 19 && 1 <= |kept| + k <= 20
    requires Value(kept) <= n && Value(kept) * Pow10000(k) == n
    ensures ReadNumeric(NumericBytes(kept, |kept| + k - 1)) == Read.Value(n)
  {
    ReadsWithZeros(kept, |kept| + k - 1, k);
    ScaledExactly(Value(kept), k, n);
  }

  lemma ReadsWithZeros(kept: seq<Digit>, weight: nat, k: nat)
    requires |kept| < U16_LIMIT && weight < 0x8000 && weight == |kept| + k - 1
    requires Value(kept) < ELEMENT_LIMIT
    ensures ReadNumeric(NumericBytes(kept, weight)) == Scaled(Value(kept), k)
  {
    ReadsScaled(kept, weight);
  }

  /** Round trip: what is written is read back unchanged and without overflow, for every 256-bit value, and also
      after the database has dropped any number of zero digits at the end while keeping the weight. */
  lemma RoundTrip(n: Element, k: nat)
    requires k <= |Digits(n)|
    requires forall i | |Digits(n)| - k <= i < |Digits(n)| :: Digits(n)[i] == 0
    ensures var digits := Digits(n);
            |digits| <= 20 && ReadNumeric(NumericBytes(digits[..|digits| - k], |digits| - 1)) == Read.Value(n)
  {
    ElementDigits(n);
    StrippedCount(n, k);
    ReadsStripped(Digits(n)[..|Digits(n)| - k], k, n);
  }
}
