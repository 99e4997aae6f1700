/**
 * Byte strings and the fixed-width integer conversions of C that the wire
 * code relies on: big-endian representation, the unsigned wrap of `uint32_t`
 * and `uint64_t`, and the two's-complement reading of `int32_t`/`int64_t`.
 */
module Bytes {

  /** A value that may be absent: a NULL pointer, a failed lookup. */
  datatype Option<T> = None | Some(value: T)

  /** An octet, as `uint8_t` holds it. */
  type byte = x: int | 0 <= x < 256

  const TWO16: int := 0x1_0000
  const TWO31: int := 0x8000_0000
  const TWO32: int := 0x1_0000_0000
  const TWO63: int := 0x8000_0000_0000_0000
  const TWO64: int := 0x1_0000_0000_0000_0000

  /** 256^n */
  function Pow256(n: nat): (r: nat)
    ensures r >= 1
  {
    if n == 0 then 1 else 256 * Pow256(n - 1)
  }

  /** The value of `x` converted to `uint32_t`. */
  function U32(x: int): (r: nat)
    ensures r < TWO32
    ensures 0 <= x < TWO32 ==> r == x
    ensures r % TWO32 == x % TWO32
  {
    x % TWO32
  }

  /** The value of `x` converted to `uint16_t`. */
  function U16(x: int): (r: nat)
    ensures r < TWO16
    ensures 0 <= x < TWO16 ==> r == x
    ensures r % TWO16 == x % TWO16
  {
    x % TWO16
  }

  /** The value of `x` converted to `uint64_t`. */
  function U64(x: int): (r: nat)
    ensures r < TWO64
    ensures 0 <= x < TWO64 ==> r == x
    ensures r % TWO64 == x % TWO64
  {
    x % TWO64
  }

  /** The value of `x` converted to `int32_t` (two's complement wrap). */
  function I32(x: int): (r: int)
    ensures -TWO31 <= r < TWO31
    ensures -TWO31 <= x < TWO31 ==> r == x
    ensures r % TWO32 == x % TWO32
  {
    var u := x % TWO32;
    if u < TWO31 then u else u - TWO32
  }

  /** The value of `x` converted to `int64_t` (two's complement wrap). */
  function I64(x: int): (r: int)
    ensures -TWO63 <= r < TWO63
    ensures -TWO63 <= x < TWO63 ==> r == x
    ensures r % TWO64 == x % TWO64
  {
    var u := x % TWO64;
    if u < TWO63 then u else u - TWO64
  }

  /** The low `n` bytes of `x`, most significant first. */
  function BigEndian(x: nat, n: nat): (r: seq<byte>)
    ensures |r| == n
  {
    if n == 0 then [] else BigEndian(x / 256, n - 1) + [x % 256]
  }

  /** The number a big-endian byte string denotes. */
  function Value(s: seq<byte>): nat
  {
    if s == [] then 0 else Value(s[..|s| - 1]) * 256 + s[|s| - 1]
  }

  /** The number of significant bytes of `x`: 0 for 0. */
  function ByteCount(x: nat): nat
  {
    if x == 0 then 0 else 1 + ByteCount(x / 256)
  }

  // ---------------------------------------------------------------------
  // Arithmetic facts about powers of 256

  lemma {:induction false} PowAdd(a: nat, b: nat)
    ensures Pow256(a + b) == Pow256(a) * Pow256(b)
  {
    if a > 0 {
      PowAdd(a - 1, b);
      calc {
        Pow256(a + b);
        256 * Pow256(a - 1 + b);
        256 * (Pow256(a - 1) * Pow256(b));
        (256 * Pow256(a - 1)) * Pow256(b);
      }
    }
  }

  lemma {:induction false} PowMono(a: nat, b: nat)
    requires a <= b
    ensures Pow256(a) <= Pow256(b)
  {
    if a < b {
      PowMono(a, b - 1);
    }
  }

  lemma PowValues()
    ensures Pow256(1) == 256 && Pow256(2) == TWO16 && Pow256(3) == 0x100_0000
    ensures Pow256(4) == TWO32 && Pow256(7) == 0x100_0000_0000_0000 && Pow256(8) == TWO64
  {
  }

  /** Division with remainder is unique. */
  lemma DivModUnique(x: int, d: int, q: int, r: int)
    requires d > 0 && 0 <= r < d && x == q * d + r
    ensures x / d == q && x % d == r
  {
    var q', r' := x / d, x % d;
    assert (q - q') * d == r' - r;
    if q > q' {
      MulAtLeast(q - q', d);
    } else if q < q' {
      MulAtLeast(q' - q, d);
    }
  }

  lemma MulAtLeast(k: int, d: int)
    requires k >= 1 && d > 0
    ensures k * d >= d
  {
  }

  /** (a*c) / (b*c) == a / b */
  lemma DivCancel(a: nat, b: nat, c: nat)
    requires b > 0 && c > 0
    ensures (a * c) / (b * c) == a / b
  {
    var q, r := a / b, a % b;
    assert a * c == q * (b * c) + r * c;
    assert r * c < b * c by { MulStrict(r, b, c); }
    DivModUnique(a * c, b * c, q, r * c);
  }

  lemma MulStrict(r: nat, b: nat, c: nat)
    requires r < b && c > 0
    ensures r * c < b * c
  {
    assert b * c - r * c == (b - r) * c;
    MulAtLeast(b - r, c);
  }

  /** (r*c) % (m*c) == (r % m) * c */
  lemma ModScale(r: nat, m: nat, c: nat)
    requires m > 0 && c > 0
    ensures (r * c) % (m * c) == (r % m) * c
  {
    var q, s := r / m, r % m;
    assert r * c == q * (m * c) + s * c;
    MulStrict(s, m, c);
    DivModUnique(r * c, m * c, q, s * c);
  }

  /** (x % (a*b)) % a == x % a */
  lemma ModMod(x: int, a: nat, b: nat)
    requires a > 0 && b > 0
    ensures (x % (a * b)) % a == x % a
  {
    var q := x / (a * b);
    var y := x % (a * b);
    assert x == (q * b) * a + y;
    var q2, r2 := y / a, y % a;
    assert x == (q * b + q2) * a + r2;
    DivModUnique(x, a, q * b + q2, r2);
  }

  /** (x % (b*256)) / b == (x / b) % 256 */
  lemma ModDivDigit(x: nat, b: nat)
    requires b > 0
    ensures (x % (b * 256)) / b == (x / b) % 256
  {
    var q, r := x / b, x % b;
    var hi, d := q / 256, q % 256;
    assert x == hi * (b * 256) + (d * b + r);
    assert d * b + r < b * 256 by {
      MulStrict(d, 256, b);
      assert (d + 1) * b <= 256 * b by { if d + 1 < 256 { MulStrict(d + 1, 256, b); } }
    }
    DivModUnique(x, b * 256, hi, d * b + r);
    DivModUnique(d * b + r, b, d, r);
  }

  /** x / (b*256) == (x / b) / 256 */
  lemma DivDiv(x: nat, b: nat)
    requires b > 0
    ensures x / (b * 256) == (x / b) / 256
  {
    var q, r := x / b, x % b;
    var hi, d := q / 256, q % 256;
    assert x == hi * (b * 256) + (d * b + r);
    assert d * b + r < b * 256 by {
      assert (d + 1) * b <= 256 * b by { if d + 1 < 256 { MulStrict(d + 1, 256, b); } }
    }
    DivModUnique(x, b * 256, hi, d * b + r);
  }

  // ---------------------------------------------------------------------
  // Big-endian representation

  lemma {:induction false} ValueBound(s: seq<byte>)
    ensures Value(s) < Pow256(|s|)
  {
    if s != [] {
      var p := s[..|s| - 1];
      ValueBound(p);
      assert Value(s) == Value(p) * 256 + s[|s| - 1];
      assert Value(p) * 256 <= (Pow256(|p|) - 1) * 256;
    }
  }

  /** Reading back the `n` bytes of `x` gives `x` when it fits in `n` bytes. */
  lemma {:induction false} ValueBigEndian(x: nat, n: nat)
    requires x < Pow256(n)
    ensures Value(BigEndian(x, n)) == x
  {
    if n > 0 {
      var s := BigEndian(x, n);
      assert s[..n - 1] == BigEndian(x / 256, n - 1);
      assert x / 256 < Pow256(n - 1) by {
        assert 256 * (x / 256) <= x;
      }
      ValueBigEndian(x / 256, n - 1);
    }
  }

  /** Writing out the value of a byte string in as many bytes gives it back. */
  lemma {:induction false} BigEndianValue(s: seq<byte>)
    ensures BigEndian(Value(s), |s|) == s
  {
    if s != [] {
      var p := s[..|s| - 1];
      var v := Value(s);
      DivModUnique(v, 256, Value(p), s[|s| - 1]);
      BigEndianValue(p);
      assert s == p + [s[|s| - 1]];
    }
  }

  /** Byte `i` of the big-endian form is digit `n-1-i` of `x`. */
  lemma {:induction false} BigEndianAt(x: nat, n: nat, i: nat)
    requires i < n
    ensures BigEndian(x, n)[i] == (x / Pow256(n - 1 - i)) % 256
  {
    if i < n - 1 {
      BigEndianAt(x / 256, n - 1, i);
      assert Pow256(n - 1 - i) == Pow256(n - 2 - i) * 256 by { PowAdd(n - 2 - i, 1); }
      DivDiv(x, Pow256(n - 2 - i));
      assert Pow256(n - 2 - i) * 256 == 256 * Pow256(n - 2 - i);
      assert x / (256 * Pow256(n - 2 - i)) == (x / 256) / Pow256(n - 2 - i) by {
        DivDiv2(x, Pow256(n - 2 - i));
      }
    }
  }

  /** x / (256*b) == (x / 256) / b */
  lemma DivDiv2(x: nat, b: nat)
    requires b > 0
    ensures x / (256 * b) == (x / 256) / b
  {
    var q, r := x / 256, x % 256;
    var hi, d := q / b, q % b;
    assert x == hi * (256 * b) + (d * 256 + r);
    assert d * 256 + r < 256 * b by {
      assert (d + 1) * 256 <= b * 256 by { if d + 1 < b { MulStrict(d + 1, b, 256); } }
    }
    DivModUnique(x, 256 * b, hi, d * 256 + r);
  }

  /** Facts that pin down `ByteCount`: `x` fits in exactly that many bytes. */
  lemma {:induction false} ByteCountBounds(x: nat)
    ensures x < Pow256(ByteCount(x))
    ensures x > 0 ==> Pow256(ByteCount(x) - 1) <= x
  {
    if x > 0 {
      ByteCountBounds(x / 256);
      var n := ByteCount(x);
      assert x / 256 < Pow256(n - 1);
      assert x < Pow256(n);
      if x / 256 > 0 {
        assert Pow256(n - 2) <= x / 256;
      }
    }
  }

  /** Any `n` with 256^(n-1) <= x < 256^n is the byte count of `x`. */
  lemma {:induction false} ByteCountUnique(x: nat, n: nat)
    requires x < Pow256(n)
    requires n > 0 ==> Pow256(n - 1) <= x
    ensures ByteCount(x) == n
  {
    if n > 0 {
      assert x > 0;
      ByteCountUnique(x / 256, n - 1);
    }
  }

  /** A value below 2^64 never needs more than 8 bytes. */
  lemma {:induction false} ByteCountAtMost(x: nat, n: nat)
    requires x < Pow256(n)
    ensures ByteCount(x) <= n
  {
    if x > 0 {
      assert n > 0;
      assert 256 * (x / 256) <= x;
      ByteCountAtMost(x / 256, n - 1);
    }
  }

  /** The bytes of `b` appended to `a` are the low |b| digits of the value. */
  lemma {:induction false} ValueAppend(a: seq<byte>, b: seq<byte>)
    ensures Value(a + b) == Value(a) * Pow256(|b|) + Value(b)
  {
    if b == [] {
      assert a + b == a;
    } else {
      var p, d := b[..|b| - 1], b[|b| - 1];
      assert (a + b)[..|a + b| - 1] == a + p;
      assert (a + b)[|a + b| - 1] == d;
      assert Value(a + b) == Value(a + p) * 256 + d;
      ValueAppend(a, p);
      assert Value(b) == Value(p) * 256 + d;
      assert Pow256(|b|) == 256 * Pow256(|p|);
      ShiftDigit(Value(a), Pow256(|p|), Value(p), d);
    }
  }

  lemma ShiftDigit(x: int, m: int, y: int, d: int)
    ensures (x * m + y) * 256 + d == x * (256 * m) + (y * 256 + d)
  {
  }

  /** Keeping the value modulo 256^k keeps exactly the last k bytes. */
  lemma ValueSuffix(s: seq<byte>, k: nat)
    requires k <= |s|
    ensures Value(s) % Pow256(k) == Value(s[|s| - k..])
  {
    var a, b := s[..|s| - k], s[|s| - k..];
    assert s == a + b;
    ValueAppend(a, b);
    ValueBound(b);
    DivModUnique(Value(s), Pow256(k), Value(a), Value(b));
  }

  /** A byte string denotes 0 exactly when all its bytes are 0. */
  lemma {:induction false} ValueZero(s: seq<byte>)
    ensures Value(s) == 0 <==> forall i :: 0 <= i < |s| ==> s[i] == 0
  {
    if s != [] {
      var p := s[..|s| - 1];
      ValueZero(p);
      assert forall i :: 0 <= i < |p| ==> p[i] == s[i];
    }
  }

  /**
   * Shifting one more byte into a k-byte accumulator that wraps, as
   * `(acc << 8) | b` does on a k-byte unsigned integer, keeps it equal to the
   * value modulo 256^k.
   */
  lemma ShiftIn(v: nat, b: byte, k: nat)
    requires k >= 1
    ensures ((v % Pow256(k)) * 256) % Pow256(k) + b == (v * 256 + b) % Pow256(k)
    ensures (v * 256 + b) % Pow256(k) < Pow256(k)
  {
    var n := Pow256(k - 1);
    assert Pow256(k) == n * 256;
    ModScale(v % Pow256(k), n, 256);
    ModMod(v, n, 256);
    assert ((v % Pow256(k)) * 256) % Pow256(k) == (v % n) * 256;
    assert (v % n) * 256 + b < n * 256 by {
      assert (v % n + 1) * 256 <= n * 256 by {
        if v % n + 1 < n { MulStrict(v % n + 1, n, 256); }
      }
    }
    assert v * 256 + b == (v / n) * (n * 256) + ((v % n) * 256 + b);
    DivModUnique(v * 256 + b, n * 256, v / n, (v % n) * 256 + b);
  }

  /** a*c < b*c implies a < b for positive c. */
  lemma MulCancelLt(a: nat, b: nat, c: nat)
    requires c > 0 && a * c < b * c
    ensures a < b
  {
    assert (b - a) * c == b * c - a * c;
  }

  /** a*c <= b*c implies a <= b for positive c. */
  lemma MulCancelLe(a: nat, b: nat, c: nat)
    requires c > 0 && a * c <= b * c
    ensures a <= b
  {
    assert (b - a) * c == b * c - a * c;
  }

  /** A string of at most k bytes denotes a value below 256^k. */
  lemma ValueFits(s: seq<byte>, k: nat)
    ensures |s| <= k ==> Value(s) < Pow256(k)
  {
    if |s| <= k {
      ValueBound(s);
      PowMono(|s|, k);
    }
  }

  /** The most significant of the n bytes of a value that needs all n is non-zero. */
  lemma LeadingDigit(x: nat, n: nat)
    requires n >= 1 && Pow256(n - 1) <= x < Pow256(n)
    ensures BigEndian(x, n)[0] != 0
  {
    BigEndianAt(x, n, 0);
    TopDigit(x, Pow256(n - 1));
  }

  /** For p <= x < 256p the quotient x/p is a non-zero digit. */
  lemma TopDigit(x: nat, p: nat)
    requires 0 < p <= x < 256 * p
    ensures 0 < x / p < 256
  {
    var q := x / p;
    assert q * p <= x;
    MulCancelLt(q, 256, p);
    assert q * p > 0;
  }

  // ---------------------------------------------------------------------
  // C strings

  /** The bytes of a C string up to its NUL terminator (or all of them). */
  function CString(s: seq<byte>): (r: seq<byte>)
    ensures |r| <= |s| && r == s[..|r|]
    ensures forall i :: 0 <= i < |r| ==> r[i] != 0
    ensures |r| < |s| ==> s[|r|] == 0
  {
    if s == [] || s[0] == 0 then [] else [s[0]] + CString(s[1..])
  }

  /** A NUL after the bytes ends their C string there: appending one changes nothing. */
  lemma {:induction false} CStringTerminated(s: seq<byte>)
    ensures CString(s + [0]) == CString(s)
  {
    if s != [] && s[0] != 0 {
      assert (s + [0])[1..] == s[1..] + [0];
      CStringTerminated(s[1..]);
    }
  }

  /** strlcpy into a buffer of `size` bytes: at most size-1 bytes are kept. */
  function Strlcpy(src: seq<byte>, size: nat): (r: seq<byte>)
    requires size >= 1
    ensures |r| < size && |r| <= |CString(src)| && r == CString(src)[..|r|]
    ensures |r| == if |CString(src)| < size then |CString(src)| else size - 1
    ensures |CString(src)| < size ==> r == CString(src)
  {
    var c := CString(src);
    if |c| < size then c else c[..size - 1]
  }
}
