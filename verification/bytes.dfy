/** Bytes, their big-endian images and the lexicographic order in which
    Berkeley DB's B-tree compares keys by default (bytewise, a proper prefix
    first). The integer-key encoding of bdbimpl.c is built on these. */
module Bytes {

  /** One unsigned 8-bit value, a `uint8_t` or `char` cell. */
  type byte = b: int | 0 <= b < 256

  /** 256^n, the number of values an n-byte word can hold. */
  function Pow256(n: nat): (p: nat)
    ensures p >= 1
  {
    if n == 0 then 1 else 256 * Pow256(n - 1)
  }

  /** The n-byte big-endian image of u: byte j is
      `(u & (0xFF << s)) >> s` with s = 8 * (n - 1 - j), the masks and shifts
      that p_setKeyDataFromKey applies to the unsigned word. */
  function BigEndian(u: nat, n: nat): (s: seq<byte>)
    ensures |s| == n
  {
    seq(n, j requires 0 <= j < n => (u / Pow256(n - 1 - j)) % 256)
  }

  /** The word assembled from big-endian bytes, `data[0] << 8*(n-1) | ... |
      data[n-1]`, as the decoding block of getNext computes it. The shifted
      bytes occupy disjoint bits, so the OR is a sum. */
  function FromBigEndian(s: seq<byte>): (u: nat)
    ensures u < Pow256(|s|)
  {
    if s == [] then 0
    else
      var rest := FromBigEndian(s[1..]);
      LemmaTopByteBound(s[0], rest, |s| - 1);
      s[0] * Pow256(|s| - 1) + rest
  }

  /** Half of the n-byte range, the value of the top bit: 0x80000000 for
      n = 4 and 0x8000000000000000 for n = 8. */
  function Half(n: nat): (h: int)
    requires n >= 1
    ensures h >= 128 && h * 2 == Pow256(n)
  {
    128 * Pow256(n - 1)
  }

  /** An n-byte bit pattern read as a two's-complement signed integer, as
      `*((int32_t *)&i)` reads an unsigned word. */
  function Signed(u: nat, n: nat): (v: int)
    requires n >= 1 && u < Pow256(n)
    ensures -Half(n) <= v < Half(n)
  {
    if u >= Half(n) then u - Pow256(n) else u
  }

  /** The n-byte image of u as a C integer lies in memory on the x86
      targets the code was written for: least significant byte first. */
  function LittleEndian(u: nat, n: nat): (s: seq<byte>)
    ensures |s| == n
  {
    seq(n, j requires 0 <= j < n => (u / Pow256(j)) % 256)
  }

  /** The unsigned word that little-endian bytes hold. */
  function FromLittleEndian(s: seq<byte>): (u: nat)
    ensures u < Pow256(|s|)
  {
    if s == [] then 0
    else
      var rest := FromLittleEndian(s[1..]);
      LemmaLowByteBound(s[0], rest, |s| - 1);
      s[0] + 256 * rest
  }

  /** Lexicographic order on byte strings: the first differing byte decides,
      and a proper prefix comes first. */
  predicate ByteLess(a: seq<byte>, b: seq<byte>)
  {
    if a == [] then b != []
    else if b == [] then false
    else a[0] < b[0] || (a[0] == b[0] && ByteLess(a[1..], b[1..]))
  }

  // ---------------------------------------------------------------------
  // Division facts used by the proofs below.

  lemma LemmaMulNonneg(a: int, b: int)
    requires a >= 0 && b >= 0
    ensures a * b >= 0
  {
  }

  lemma LemmaMulSub(a: int, b: int, m: int)
    ensures (a - b) * m == a * m - b * m
  {
  }

  lemma LemmaMulAddAssoc(h: int, b: int, q: int)
    ensures (h * 256 + b) * q == h * (256 * q) + b * q
  {
  }

  /** Euclidean division is determined by any decomposition u == a*m + r. */
  lemma LemmaDivModUnique(u: int, m: int, a: int, r: int)
    requires m > 0 && u == a * m + r && 0 <= r < m
    ensures u / m == a && u % m == r
  {
    var q, s := u / m, u % m;
    assert u == q * m + s;
    if q > a {
      LemmaMulSub(q - 1, a, m);
      LemmaMulNonneg(q - 1 - a, m);
      LemmaMulSub(q, 1, m);
      assert false;
    } else if q < a {
      LemmaMulSub(a - 1, q, m);
      LemmaMulNonneg(a - 1 - q, m);
      LemmaMulSub(a, 1, m);
      assert false;
    }
  }

  lemma LemmaTopByteBound(b: byte, rest: nat, k: nat)
    requires rest < Pow256(k)
    ensures b * Pow256(k) + rest < Pow256(k + 1)
  {
    LemmaMulSub(255, b, Pow256(k));
    LemmaMulNonneg(255 - b, Pow256(k));
  }

  /** Splitting u into its byte at position k and the bytes below it. */
  lemma LemmaModSplit(u: int, q: int)
    requires q > 0
    ensures ((u / q) % 256) * q + u % q == u % (256 * q)
    ensures (u % (256 * q)) / q == (u / q) % 256
    ensures (u % (256 * q)) % q == u % q
  {
    var hi, b, r := (u / q) / 256, (u / q) % 256, u % q;
    assert u == (u / q) * q + r;
    assert u / q == hi * 256 + b;
    LemmaMulAddAssoc(hi, b, q);
    assert u == hi * (256 * q) + (b * q + r);
    LemmaMulSub(255, b, q);
    LemmaMulNonneg(255 - b, q);
    LemmaMulNonneg(b, q);
    assert 0 <= b * q + r < 256 * q;
    LemmaDivModUnique(u, 256 * q, hi, b * q + r);
    LemmaDivModUnique(b * q + r, q, b, r);
  }

  lemma LemmaLowByteBound(b: byte, rest: nat, k: nat)
    requires rest < Pow256(k)
    ensures b + 256 * rest < Pow256(k + 1)
  {
    LemmaMulSub(Pow256(k), rest, 256);
    LemmaMulNonneg(Pow256(k) - rest - 1, 256);
    LemmaMulSub(Pow256(k) - rest, 1, 256);
  }

  /** Splitting u into its low byte and the bytes above it. */
  lemma LemmaLowSplit(u: int, q: int)
    requires q > 0
    ensures u % 256 + 256 * ((u / 256) % q) == u % (256 * q)
    ensures u / (256 * q) == (u / 256) / q
  {
    var a, b, c := (u / 256) / q, (u / 256) % q, u % 256;
    assert u == 256 * (u / 256) + c;
    assert u / 256 == a * q + b;
    assert u == a * (256 * q) + (256 * b + c);
    LemmaMulSub(q, b + 1, 256);
    LemmaMulNonneg(q - b - 1, 256);
    LemmaDivModUnique(u, 256 * q, a, 256 * b + c);
  }

  // ---------------------------------------------------------------------
  // Two's complement and little-endian images.

  /** The signed reading of a bit pattern has that bit pattern. */
  lemma LemmaSignedBits(u: nat, n: nat)
    requires n >= 1 && u < Pow256(n)
    ensures Signed(u, n) % Pow256(n) == u
  {
    if u >= Half(n) {
      LemmaDivModUnique(u - Pow256(n), Pow256(n), -1, u);
    } else {
      LemmaDivModUnique(u, Pow256(n), 0, u);
    }
  }

  /** Reading back the bit pattern of an in-range signed value gives the value. */
  lemma LemmaSignedMod(v: int, n: nat)
    requires n >= 1 && -Half(n) <= v < Half(n)
    ensures Signed(v % Pow256(n), n) == v
  {
    if v >= 0 {
      LemmaDivModUnique(v, Pow256(n), 0, v);
    } else {
      LemmaDivModUnique(v, Pow256(n), -1, v + Pow256(n));
    }
  }

  /** Reading the little-endian image of u gives back u modulo 256^n. */
  lemma {:induction false} LemmaFromLittleEndian(u: nat, n: nat)
    ensures FromLittleEndian(LittleEndian(u, n)) == u % Pow256(n)
  {
    if n >= 1 {
      var s := LittleEndian(u, n);
      forall j | 0 <= j < n - 1
        ensures s[1..][j] == LittleEndian(u / 256, n - 1)[j]
      {
        LemmaLowSplit(u, Pow256(j));
      }
      assert s[1..] == LittleEndian(u / 256, n - 1);
      assert s[0] == u % 256;
      LemmaFromLittleEndian(u / 256, n - 1);
      LemmaLowSplit(u, Pow256(n - 1));
    }
  }

  /** The low k bytes of a little-endian word hold the word modulo 256^k. */
  lemma {:induction false} LemmaLittleEndianPrefix(s: seq<byte>, k: nat)
    requires k <= |s|
    ensures FromLittleEndian(s) % Pow256(k) == FromLittleEndian(s[..k])
  {
    if k >= 1 {
      var rest := FromLittleEndian(s[1..]);
      var u := s[0] + 256 * rest;
      assert s[..k][1..] == s[1..][..k - 1];
      LemmaLittleEndianPrefix(s[1..], k - 1);
      LemmaDivModUnique(u, 256, rest, s[0]);
      LemmaLowSplit(u, Pow256(k - 1));
    } else {
      LemmaDivModUnique(FromLittleEndian(s), 1, FromLittleEndian(s), 0);
    }
  }

  /** Zero bytes hold the word zero. */
  lemma {:induction false} LemmaFromLittleEndianZeros(s: seq<byte>)
    requires forall i :: 0 <= i < |s| ==> s[i] == 0
    ensures FromLittleEndian(s) == 0
  {
    if s != [] {
      LemmaFromLittleEndianZeros(s[1..]);
    }
  }

  // ---------------------------------------------------------------------
  // Big-endian images.

  /** The first byte of the image and the image of the remaining bytes. */
  lemma LemmaBigEndianCons(u: nat, n: nat)
    requires n >= 1
    ensures BigEndian(u, n) == [(u / Pow256(n - 1)) % 256] + BigEndian(u, n - 1)
  {
  }

  /** Only u modulo 256^n shows in the n-byte image. */
  lemma {:induction false} LemmaBigEndianMod(u: nat, v: nat, n: nat)
    requires u % Pow256(n) == v % Pow256(n)
    ensures BigEndian(u, n) == BigEndian(v, n)
  {
    if n >= 1 {
      var q := Pow256(n - 1);
      LemmaModSplit(u, q);
      LemmaModSplit(v, q);
      LemmaBigEndianMod(u, v, n - 1);
      LemmaBigEndianCons(u, n);
      LemmaBigEndianCons(v, n);
    }
  }

  /** Assembling the image of u gives back u modulo 256^n. */
  lemma {:induction false} LemmaFromBigEndian(u: nat, n: nat)
    ensures FromBigEndian(BigEndian(u, n)) == u % Pow256(n)
  {
    if n >= 1 {
      var q := Pow256(n - 1);
      LemmaBigEndianCons(u, n);
      assert BigEndian(u, n)[1..] == BigEndian(u, n - 1);
      LemmaFromBigEndian(u, n - 1);
      LemmaModSplit(u, q);
    }
  }

  /** The image of the assembled word is the byte string itself. */
  lemma {:induction false} LemmaBigEndianFrom(s: seq<byte>)
    ensures BigEndian(FromBigEndian(s), |s|) == s
  {
    if s != [] {
      var n, rest := |s|, FromBigEndian(s[1..]);
      var q := Pow256(n - 1);
      var u := FromBigEndian(s);
      assert u == s[0] * q + rest;
      LemmaDivModUnique(u, q, s[0], rest);
      LemmaDivModUnique(rest, q, 0, rest);
      LemmaBigEndianMod(u, rest, n - 1);
      LemmaBigEndianFrom(s[1..]);
      assert BigEndian(rest, n - 1) == s[1..];
      LemmaDivModUnique(s[0], 256, 0, s[0]);
      assert (u / q) % 256 == s[0];
      LemmaBigEndianCons(u, n);
      assert BigEndian(u, n) == [s[0]] + s[1..];
      assert [s[0]] + s[1..] == s;
    }
  }

  /** x <= y implies x / q <= y / q, and an upper bound on the quotient. */
  lemma LemmaDivMonotone(x: nat, y: nat, q: nat, k: nat)
    requires q > 0 && x <= y < k * q
    ensures x / q <= y / q < k
  {
    LemmaDivModUnique(x, q, x / q, x % q);
    LemmaDivModUnique(y, q, y / q, y % q);
    if x / q > y / q {
      LemmaMulSub(y / q + 1, y / q, q);
      LemmaMulSub(x / q, y / q + 1, q);
      LemmaMulNonneg(x / q - y / q - 1, q);
      assert false;
    }
    if y / q >= k {
      LemmaMulSub(y / q, k, q);
      LemmaMulNonneg(y / q - k, q);
      assert false;
    }
  }

  /** Words that agree in their top byte differ in the bytes below it. */
  lemma LemmaSameTopByte(x: nat, y: nat, q: nat)
    requires q > 0 && x < y && x / q == y / q
    ensures x % q < y % q
    ensures (x % q) % q == x % q && (y % q) % q == y % q
  {
    assert x == (x / q) * q + x % q && y == (y / q) * q + y % q;
    LemmaDivModUnique(x % q, q, 0, x % q);
    LemmaDivModUnique(y % q, q, 0, y % q);
  }

  /** Big-endian images of words of the same width are ordered as the words. */
  lemma {:induction false} LemmaBigEndianOrder(x: nat, y: nat, n: nat)
    requires x < y < Pow256(n)
    ensures ByteLess(BigEndian(x, n), BigEndian(y, n))
  {
    var q := Pow256(n - 1);
    var ex, ey := BigEndian(x, n), BigEndian(y, n);
    LemmaBigEndianCons(x, n);
    LemmaBigEndianCons(y, n);
    LemmaDivMonotone(x, y, q, 256);
    LemmaDivModUnique(x / q, 256, 0, x / q);
    LemmaDivModUnique(y / q, 256, 0, y / q);
    assert ex[0] == x / q && ey[0] == y / q;
    if x / q == y / q {
      LemmaSameTopByte(x, y, q);
      LemmaBigEndianMod(x, x % q, n - 1);
      LemmaBigEndianMod(y, y % q, n - 1);
      LemmaBigEndianOrder(x % q, y % q, n - 1);
      assert ex[1..] == BigEndian(x % q, n - 1);
      assert ey[1..] == BigEndian(y % q, n - 1);
    }
  }

  // ---------------------------------------------------------------------
  // The lexicographic order is a strict total order.

  lemma {:induction false} LemmaByteLessIrreflexive(a: seq<byte>)
    ensures !ByteLess(a, a)
  {
    if a != [] {
      LemmaByteLessIrreflexive(a[1..]);
    }
  }

  lemma {:induction false} LemmaByteLessTransitive(a: seq<byte>, b: seq<byte>, c: seq<byte>)
    requires ByteLess(a, b) && ByteLess(b, c)
    ensures ByteLess(a, c)
  {
    if a != [] && b != [] && c != [] && a[0] == b[0] == c[0] {
      LemmaByteLessTransitive(a[1..], b[1..], c[1..]);
    }
  }

  lemma {:induction false} LemmaByteLessTotal(a: seq<byte>, b: seq<byte>)
    ensures a == b || ByteLess(a, b) || ByteLess(b, a)
  {
    if a != [] && b != [] && a[0] == b[0] {
      LemmaByteLessTotal(a[1..], b[1..]);
      if a[1..] == b[1..] {
        assert a == [a[0]] + a[1..] && b == [b[0]] + b[1..];
      }
    }
  }

  lemma LemmaByteLessAsymmetric(a: seq<byte>, b: seq<byte>)
    requires ByteLess(a, b)
    ensures !ByteLess(b, a)
  {
    if ByteLess(b, a) {
      LemmaByteLessTransitive(a, b, a);
      LemmaByteLessIrreflexive(a);
    }
  }
}
