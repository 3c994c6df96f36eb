/** Bytes, 32-byte hashes, and the bit path by which a hash addresses a leaf of a sparse Merkle tree. */
module Bytes {

  type byte = b: int | 0 <= b < 256

  /** The 32 bytes of an H256, least significant byte first. */
  type H256 = s: seq<byte> | |s| == 32 witness seq(32, _ => 0)

  function Zeros(n: nat): (bytes: seq<byte>)
    ensures |bytes| == n
    ensures forall i | 0 <= i < n :: bytes[i] == 0
  {
    seq(n, _ => 0)
  }

  const ZERO_HASH: H256 := Zeros(32)

  /** The number of levels between the root of a tree and its leaves. */
  const DEPTH: nat := 256

  /** A position in the tree: the turns taken from the root, `true` for right. */
  type Path = p: seq<bool> | |p| <= DEPTH

  function Pow2(n: nat): (r: nat)
    ensures r > 0
  {
    if n == 0 then 1 else 2 * Pow2(n - 1)
  }

  /** The `count` least significant bits of `n`, least significant first. */
  function LowBits(n: nat, count: nat): (bits: seq<bool>)
    ensures |bits| == count
    decreases n, count
  {
    if count == 0 then [] else [n % 2 == 1] + LowBits(n / 2, count - 1)
  }

  function FromLowBits(bits: seq<bool>): (n: nat)
    ensures n < Pow2(|bits|)
  {
    if bits == [] then 0 else (if bits[0] then 1 else 0) + 2 * FromLowBits(bits[1..])
  }

  lemma {:induction false} LowBitsRoundTrip(bits: seq<bool>)
    ensures LowBits(FromLowBits(bits), |bits|) == bits
  {
    if bits != [] {
      LowBitsRoundTrip(bits[1..]);
    }
  }

  /** Reading the low bits back gives the number modulo a power of two. */
  lemma {:induction false} FromLowBitsOfLowBits(n: nat, count: nat)
    ensures FromLowBits(LowBits(n, count)) == n % Pow2(count)
  {
    if count > 0 {
      FromLowBitsOfLowBits(n / 2, count - 1);
      assert LowBits(n, count)[1..] == LowBits(n / 2, count - 1);
      ModDouble(n, Pow2(count - 1));
    }
  }

  lemma LowBitsOfMod(n: nat, count: nat)
    ensures LowBits(n, count) == LowBits(n % Pow2(count), count)
  {
    FromLowBitsOfLowBits(n, count);
    LowBitsRoundTrip(LowBits(n, count));
  }

  lemma DivideTwice(n: nat, a: nat, b: nat)
    requires a > 0 && b > 0
    ensures a * b > 0 && n / a / b == n / (a * b)
  {
    QuotientOfQuotient(n, n / a, n / a / b, n / a % b, n % a, a, b);
  }

  lemma QuotientOfQuotient(n: nat, h: nat, q: nat, high: nat, low: nat, a: nat, b: nat)
    requires n == h * a + low && h == q * b + high && low < a && high < b
    ensures a * b > 0 && n / (a * b) == q
  {
    Distribute(q, high, a, b);
    RestIsSmall(high, low, a, b);
    QuotientUnique(n, a * b, q, high * a + low);
  }

  lemma Distribute(q: nat, r: nat, a: nat, b: nat)
    ensures (q * b + r) * a == q * (a * b) + r * a
  {
  }

  lemma RestIsSmall(high: nat, low: nat, a: nat, b: nat)
    requires low < a && high < b
    ensures high * a + low < a * b && a * b > 0
  {
    assert (high + 1) * a <= b * a;
  }

  lemma QuotientUnique(n: nat, m: nat, q: nat, r: nat)
    requires m > 0 && r < m && n == q * m + r
    ensures n / m == q
  {
    ModUnique(n, m, q, r);
    assert n == n / m * m + n % m;
    if n / m != q {
      assert (n / m - q) * m == 0;
      MultipleIsLarge(n / m - q, m);
    }
  }

  /** Bit `i` is the binary digit of weight 2 to the `i`. */
  lemma {:induction false} LowBitsAt(n: nat, count: nat, i: nat)
    requires i < count
    ensures LowBits(n, count)[i] <==> n / Pow2(i) % 2 == 1
    decreases i
  {
    if i > 0 {
      LowBitsAt(n / 2, count - 1, i - 1);
      DivideTwice(n, 2, Pow2(i - 1));
    }
  }

  lemma {:induction false} FromLowBitsSnoc(bits: seq<bool>)
    requires bits != []
    ensures var last := |bits| - 1;
            FromLowBits(bits) == FromLowBits(bits[..last]) + if bits[last] then Pow2(last) else 0
  {
    var last := |bits| - 1;
    if last > 0 {
      FromLowBitsSnoc(bits[1..]);
      assert bits[1..][..last - 1] == bits[..last][1..];
    }
  }

  lemma ModDouble(n: nat, m: nat)
    requires m > 0
    ensures n % (2 * m) == n % 2 + 2 * ((n / 2) % m)
  {
    var h, q, r := n / 2, n / 2 / m, (n / 2) % m;
    assert n == (n % 2 + 2 * r) + q * (2 * m) by {
      assert h == q * m + r;
    }
    ModUnique(n, 2 * m, q, n % 2 + 2 * r);
  }

  lemma ModUnique(n: nat, m: nat, q: nat, r: nat)
    requires 0 <= r < m
    requires n == r + q * m
    ensures n % m == r
  {
    var d := n / m - q;
    assert d * m == r - n % m by {
      assert n == (n / m) * m + n % m;
    }
    if d != 0 {
      MultipleIsLarge(d, m);
    }
  }

  lemma MultipleIsLarge(d: int, m: nat)
    requires d != 0
    ensures d * m >= m || d * m + m <= 0
  {
  }

  /** The bit of `k` that decides the turn `height` levels above the leaves. */
  function BitAt(k: H256, height: nat): bool
    requires height < DEPTH
  {
    LowBits(k[height / 8], 8)[height % 8]
  }

  /** The full path from the root to the leaf addressed by `k`; the most significant bit turns first. */
  function Bits(k: H256): (p: Path)
    ensures |p| == DEPTH
  {
    seq(DEPTH, d requires 0 <= d < DEPTH => BitAt(k, DEPTH - 1 - d))
  }

  function Octet(p: Path, j: nat): (bits: seq<bool>)
    requires |p| == DEPTH && j < 32
    ensures |bits| == 8
  {
    seq(8, i requires 0 <= i < 8 => p[DEPTH - 1 - (8 * j + i)])
  }

  /** The key whose path is `p`. */
  function KeyOf(p: Path): H256
    requires |p| == DEPTH
  {
    seq(32, j requires 0 <= j < 32 => OctetByte(p, j))
  }

  function OctetByte(p: Path, j: nat): byte
    requires |p| == DEPTH && j < 32
  {
    assert Pow2(8) == 256;
    FromLowBits(Octet(p, j))
  }

  lemma OctetOfBits(k: H256, j: nat)
    requires j < 32
    ensures Octet(Bits(k), j) == LowBits(k[j], 8)
  {
    forall i | 0 <= i < 8
      ensures Octet(Bits(k), j)[i] == LowBits(k[j], 8)[i]
    {
      var height := 8 * j + i;
      assert height / 8 == j && height % 8 == i;
      assert Bits(k)[DEPTH - 1 - height] == BitAt(k, height);
    }
  }

  lemma ByteOfLowBits(n: byte)
    ensures FromLowBits(LowBits(n, 8)) == n
  {
    PowEight();
    FromLowBitsOfLowBits(n, 8);
  }

  lemma OctetByteOfBits(k: H256, j: nat)
    requires j < 32
    ensures OctetByte(Bits(k), j) == k[j]
  {
    OctetOfBits(k, j);
    ByteOfLowBits(k[j]);
  }

  lemma KeyOfBits(k: H256)
    ensures KeyOf(Bits(k)) == k
  {
    forall j | 0 <= j < 32
      ensures KeyOf(Bits(k))[j] == k[j]
    {
      OctetByteOfBits(k, j);
    }
  }

  lemma BitOfKey(p: Path, height: nat)
    requires |p| == DEPTH && height < DEPTH
    ensures BitAt(KeyOf(p), height) == p[DEPTH - 1 - height]
  {
    var j, i := height / 8, height % 8;
    LowBitsRoundTrip(Octet(p, j));
    assert 8 * j + i == height;
    assert Octet(p, j)[i] == p[DEPTH - 1 - height];
    assert KeyOf(p)[j] == OctetByte(p, j);
  }

  lemma BitsOfKey(p: Path)
    requires |p| == DEPTH
    ensures Bits(KeyOf(p)) == p
  {
    forall d | 0 <= d < DEPTH
      ensures Bits(KeyOf(p))[d] == p[d]
    {
      BitOfKey(p, DEPTH - 1 - d);
    }
  }

  lemma BitsInjective(a: H256, b: H256)
    requires Bits(a) == Bits(b)
    ensures a == b
  {
    KeyOfBits(a);
    KeyOfBits(b);
  }

  /** `n` in `count` bytes, least significant first; higher digits are cut off. */
  function LittleEndian(n: nat, count: nat): (bytes: seq<byte>)
    ensures |bytes| == count
    decreases n, count
  {
    if count == 0 then [] else [n % 256] + LittleEndian(n / 256, count - 1)
  }

  function FromLittleEndian(bytes: seq<byte>): nat {
    if bytes == [] then 0 else bytes[0] + 256 * FromLittleEndian(bytes[1..])
  }

  const U32_LIMIT: nat := 0x1_0000_0000
  const U64_LIMIT: nat := 0x1_0000_0000_0000_0000

  lemma FourBytes(n: nat, a: nat, b: nat, c: nat, d: nat, p: nat, q: nat, r: nat, s: nat)
    requires p < 256 && q < 256 && r < 256 && s < 256
    requires n == p + 256 * a && a == q + 256 * b && b == r + 256 * c && c == s + 256 * d
    ensures p + 256 * (q + 256 * (r + 256 * s)) == n % U32_LIMIT
  {
    ModUnique(n, U32_LIMIT, d, p + 256 * (q + 256 * (r + 256 * s)));
  }

  lemma LowestByte(n: nat, count: nat) returns (low: nat, high: nat)
    requires count > 0
    ensures low < 256 && n == low + 256 * high
    ensures FromLittleEndian(LittleEndian(n, count)) == low + 256 * FromLittleEndian(LittleEndian(high, count - 1))
  {
    low, high := n % 256, n / 256;
    LittleEndianTail(n, count);
  }

  lemma U32RoundTrip(n: nat)
    ensures FromLittleEndian(LittleEndian(n, 4)) == n % U32_LIMIT
  {
    var p, a := LowestByte(n, 4);
    var q, b := LowestByte(a, 3);
    var r, c := LowestByte(b, 2);
    var s, d := LowestByte(c, 1);
    FourBytes(n, a, b, c, d, p, q, r, s);
  }

  lemma U32Exact(n: nat)
    requires n < U32_LIMIT
    ensures FromLittleEndian(LittleEndian(n, 4)) == n
  {
    U32RoundTrip(n);
  }

  lemma U64RoundTrip(n: nat)
    requires n < U64_LIMIT
    ensures FromLittleEndian(LittleEndian(n, 8)) == n
  {
    var high := n / 256 / 256 / 256 / 256;
    assert high < U32_LIMIT;
    LittleEndianTail(n, 8);
    LittleEndianTail(n / 256, 7);
    LittleEndianTail(n / 256 / 256, 6);
    LittleEndianTail(n / 256 / 256 / 256, 5);
    U32Exact(high);
  }

  lemma LittleEndianTail(n: nat, count: nat)
    requires count > 0
    ensures FromLittleEndian(LittleEndian(n, count)) == n % 256 + 256 * FromLittleEndian(LittleEndian(n / 256, count - 1))
  {
    assert LittleEndian(n, count)[1..] == LittleEndian(n / 256, count - 1);
  }

  lemma NumberBitLow(bytes: seq<byte>, i: nat)
    requires bytes != [] && i < 8
    ensures FromLittleEndian(bytes) / Pow2(i) % 2 == 1 <==> LowBits(bytes[0], 8)[i]
  {
    var n := FromLittleEndian(bytes);
    LowByte(bytes);
    PowEight();
    LowBitsOfMod(n, 8);
    LowBitsAt(n, 8, i);
  }

  lemma PowEight()
    ensures Pow2(8) == 256
  {
  }

  lemma SkipByte(n: nat, height: nat)
    ensures n / Pow2(height + 8) == n / 256 / Pow2(height)
  {
    PowEight();
    PowSum(height, 8);
    DivideTwice(n, 256, Pow2(height));
  }

  /** The number that bytes stand for has their bits as its binary digits. */
  lemma {:induction false} NumberBit(bytes: seq<byte>, j: nat, i: nat)
    requires j < |bytes| && i < 8
    ensures FromLittleEndian(bytes) / Pow2(8 * j + i) % 2 == 1 <==> LowBits(bytes[j], 8)[i]
  {
    if j == 0 {
      NumberBitLow(bytes, i);
    } else {
      LowByte(bytes);
      SkipByte(FromLittleEndian(bytes), 8 * (j - 1) + i);
      NumberBit(bytes[1..], j - 1, i);
    }
  }

  /** The turn `height` levels above the leaves is the binary digit of that weight of the key read as a number. */
  lemma TurnIsDigit(k: H256, height: nat)
    requires height < DEPTH
    ensures Bits(k)[DEPTH - 1 - height] <==> FromLittleEndian(k) / Pow2(height) % 2 == 1
  {
    assert Bits(k)[DEPTH - 1 - height] == BitAt(k, height);
    assert height == 8 * (height / 8) + height % 8;
    NumberBit(k, height / 8, height % 8);
  }

  lemma LowByte(bytes: seq<byte>)
    requires bytes != []
    ensures FromLittleEndian(bytes) % 256 == bytes[0] && FromLittleEndian(bytes) / 256 == FromLittleEndian(bytes[1..])
  {
  }

  lemma DoubleProduct(x: nat, y: nat)
    ensures 2 * x * y == 2 * (x * y)
  {
  }

  lemma {:induction false} PowSum(a: nat, b: nat)
    ensures Pow2(a + b) == Pow2(a) * Pow2(b)
  {
    if a > 0 {
      PowSum(a - 1, b);
      DoubleProduct(Pow2(a - 1), Pow2(b));
    }
  }

  lemma ConcatSlices<T>(a: seq<T>, b: seq<T>)
    ensures (a + b)[..|a|] == a && (a + b)[|a|..] == b
  {
  }

  /** Byte `i` is the digit of weight 256 to the `i`. */
  lemma {:induction false} LittleEndianAt(n: nat, count: nat, i: nat)
    requires i < count
    ensures LittleEndian(n, count)[i] == n / Pow2(8 * i) % 256
    decreases i
  {
    if i > 0 {
      LittleEndianAt(n / 256, count - 1, i - 1);
      SkipByte(n, 8 * (i - 1));
    }
  }

  /** Writing back what was read gives the same bytes. */
  lemma {:induction false} Reencodes(bytes: seq<byte>)
    ensures LittleEndian(FromLittleEndian(bytes), |bytes|) == bytes
    ensures FromLittleEndian(bytes) < Pow2(8 * |bytes|)
  {
    if bytes != [] {
      LowByte(bytes);
      Reencodes(bytes[1..]);
      PowEight();
      PowSum(8, 8 * |bytes[1..]|);
      assert bytes == [bytes[0]] + bytes[1..];
    }
  }

  lemma PowDouble(n: nat, value: nat)
    requires Pow2(n) == value
    ensures Pow2(n + n) == value * value
  {
    PowSum(n, n);
  }

  lemma Limits()
    ensures Pow2(32) == U32_LIMIT && Pow2(64) == U64_LIMIT
  {
    PowEight();
    PowDouble(8, 256);
    PowDouble(16, 65536);
    PowDouble(32, U32_LIMIT);
  }
}
