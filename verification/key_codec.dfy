/** The order-preserving key encoding of bdbimpl.c (p_setKeyDataFromKey) and
    its inverse (the decoding block of getNext). Berkeley DB compares keys as
    byte strings; SHORT and INT keys are written big-endian with the sign bit
    toggled so that this byte order is the numeric order of the keys. */
module KeyCodec {
  import opened Bytes
  import opened Wrappers
  import opened Api

  /** `data[0] ^= 0x80`: toggling the top bit of a byte, which sets it when
      it is clear and clears it when it is set. */
  function FlipTopBit(b: byte): (r: byte)
    ensures r == (b + 128) % 256
  {
    if b < 128 then b + 128 else b - 128
  }

  /** The bytes of a signed n-byte integer: its two's-complement bit pattern
      as an unsigned word (`uint32_t i = shortkey`, which Euclidean `%`
      computes), written big-endian, with the top bit of byte 0 toggled. */
  function EncodeSigned(v: int, n: nat): (s: seq<byte>)
    requires n >= 1
    ensures |s| == n
  {
    var raw := BigEndian(v % Pow256(n), n);
    [FlipTopBit(raw[0])] + raw[1..]
  }

  /** The inverse steps of getNext: assemble the big-endian word, toggle its
      top bit (`i ^= 0x80000000`, which subtracts the top bit's value when it
      is set and adds it when it is clear) and read the bit pattern back as a
      signed integer (`*((int32_t *)&i)`). */
  function DecodeSigned(s: seq<byte>): (v: int)
    requires |s| >= 1
    ensures -Half(|s|) <= v < Half(|s|)
  {
    var n := |s|;
    var w := FromBigEndian(s);
    var x := if w >= Half(n) then w - Half(n) else w + Half(n);
    if x >= Half(n) then x - Pow256(n) else x
  }

  /** The first n bytes a decoder reads from a stored key. A key stored by
      an insert with another type than the index's can be shorter than n
      bytes (a VARCHAR key in a SHORT index); the C code then reads past its
      end, and the model reads zeros there. */
  function Window(data: seq<byte>, n: nat): (w: seq<byte>)
    ensures |w| == n
    ensures |data| >= n ==> w == data[..n]
  {
    if |data| >= n then data[..n] else data + Zeros(n - |data|)
  }

  /** p_setKeyDataFromKey: the bytes Berkeley DB stores for a key, or None
      where the C function returns -1. */
  function EncodeKey(k: Key): (r: Option<seq<byte>>)
    ensures r.None? <==> k.kind.Unknown?
    ensures k.kind == Short ==> |r.value| == 4
    ensures k.kind == Int ==> |r.value| == 8
    ensures k.kind == Varchar ==>
      |r.value| == StrLen(k.keyval) && forall i :: 0 <= i < |r.value| ==> r.value[i] != 0
  {
    match k.kind
    case Short => Some(EncodeSigned(ShortKey(k) as int, 4))
    case Int => Some(EncodeSigned(IntKey(k) as int, 8))
    case Varchar => Some(CString(k.keyval))
    case Unknown(_) => None
  }

  /** The decoding block of getNext: a zeroed Key that receives the type of
      the index and the value decoded from the stored bytes, written through
      the view of that type. A VARCHAR value is copied up to
      MAX_VARCHAR_LEN bytes into the zeroed buffer; an index of unknown
      type leaves the key all zero. */
  function DecodeKey(kind: KeyType, data: seq<byte>): (k: Key)
    ensures kind.Unknown? ==> k == ZeroKey()
    ensures !kind.Unknown? ==> k.kind == kind
    ensures kind == Short ==> k.keyval[4..] == Zeros(MAX_VARCHAR_LEN + 1)[4..]
    ensures kind == Int ==> k.keyval[8..] == Zeros(MAX_VARCHAR_LEN + 1)[8..]
  {
    match kind
    case Varchar =>
      var m := Min(|data|, MAX_VARCHAR_LEN);
      Key(Varchar, data[..m] + Zeros(MAX_VARCHAR_LEN + 1 - m))
    case Short => WithShortKey(ZeroKey(), DecodeSigned(Window(data, 4)) as int32)
    case Int => WithIntKey(ZeroKey().(kind := Int), DecodeSigned(Window(data, 8)) as int64)
    case Unknown(_) => ZeroKey()
  }

  // ---------------------------------------------------------------------
  // Properties of the signed encoding.

  /** The quotient of an in-range value by the weight of the top byte. */
  lemma LemmaTopQuotient(v: int, q: int)
    requires q > 0 && -128 * q <= v < 128 * q
    ensures -128 <= v / q < 128
  {
    var qv := v / q;
    assert v == qv * q + v % q;
    if qv < -128 {
      LemmaMulSub(-129, qv, q);
      LemmaMulNonneg(-129 - qv, q);
      assert false;
    }
    if qv >= 128 {
      LemmaMulSub(qv, 128, q);
      LemmaMulNonneg(qv - 128, q);
      assert false;
    }
  }

  /** Digit by digit, the two's-complement word of v and the biased value
      v + 128q (q the weight of the top byte) have the same bytes below the
      top one, and top bytes that differ in the top bit. */
  lemma LemmaBiasDigits(v: int, q: int)
    requires q > 0 && -128 * q <= v < 128 * q
    ensures (v % (256 * q)) % q == (v + 128 * q) % q
    ensures FlipTopBit(((v % (256 * q)) / q) % 256) == ((v + 128 * q) / q) % 256
  {
    var qv := v / q;
    LemmaTopQuotient(v, q);
    LemmaShiftQuotient(v, q, 128);
    LemmaDivModUnique(qv + 128, 256, 0, qv + 128);
    if v >= 0 {
      LemmaDivModUnique(v, 256 * q, 0, v);
      LemmaDivModUnique(qv, 256, 0, qv);
    } else {
      LemmaDivModUnique(v, 256 * q, -1, v + 256 * q);
      LemmaShiftQuotient(v, q, 256);
      LemmaDivModUnique(qv + 256, 256, 0, qv + 256);
    }
  }

  /** Adding k times the divisor adds k to the quotient and keeps the remainder. */
  lemma LemmaShiftQuotient(v: int, q: int, k: int)
    requires q > 0
    ensures (v + k * q) / q == v / q + k && (v + k * q) % q == v % q
  {
    assert v == (v / q) * q + v % q;
    LemmaMulSub(v / q + k, k, q);
    LemmaDivModUnique(v + k * q, q, v / q + k, v % q);
  }

  /** Toggling the top bit of the two's-complement word is adding the bias:
      the encoding of v is the plain big-endian image of v + 2^(8n-1). */
  lemma LemmaEncodeSignedBiased(v: int, n: nat)
    requires n >= 1 && -Half(n) <= v < Half(n)
    ensures EncodeSigned(v, n) == BigEndian(v + Half(n), n)
  {
    var q := Pow256(n - 1);
    var u := v % Pow256(n);
    LemmaBiasDigits(v, q);
    LemmaBigEndianCons(u, n);
    LemmaBigEndianCons(v + Half(n), n);
    LemmaBigEndianMod(u, v + Half(n), n - 1);
  }

  /** Decoding the encoding of an in-range signed value gives the value back. */
  lemma LemmaSignedRoundTrip(v: int, n: nat)
    requires n >= 1 && -Half(n) <= v < Half(n)
    ensures DecodeSigned(EncodeSigned(v, n)) == v
  {
    var u := v + Half(n);
    LemmaEncodeSignedBiased(v, n);
    LemmaFromBigEndian(u, n);
    LemmaDivModUnique(u, Pow256(n), 0, u);
  }

  /** The encoding orders signed values of one width as the numbers are
      ordered, in both directions. */
  lemma LemmaSignedOrder(a: int, b: int, n: nat)
    requires n >= 1 && -Half(n) <= a < Half(n) && -Half(n) <= b < Half(n)
    ensures a < b <==> ByteLess(EncodeSigned(a, n), EncodeSigned(b, n))
  {
    LemmaEncodeSignedBiased(a, n);
    LemmaEncodeSignedBiased(b, n);
    if a < b {
      LemmaBigEndianOrder(a + Half(n), b + Half(n), n);
    } else if b < a {
      LemmaBigEndianOrder(b + Half(n), a + Half(n), n);
      LemmaByteLessAsymmetric(EncodeSigned(b, n), EncodeSigned(a, n));
    } else {
      LemmaByteLessIrreflexive(EncodeSigned(a, n));
    }
  }

  // ---------------------------------------------------------------------
  // Properties of the key encoding.

  /** A NUL-free string followed by at least one zero byte is a C string of
      exactly that length. */
  lemma {:induction false} LemmaStrLenTerminated(a: seq<byte>, k: nat)
    requires k >= 1 && forall i :: 0 <= i < |a| ==> a[i] != 0
    ensures StrLen(a + Zeros(k)) == |a|
    ensures CString(a + Zeros(k)) == a
  {
    if a != [] {
      assert (a + Zeros(k))[1..] == a[1..] + Zeros(k);
      LemmaStrLenTerminated(a[1..], k);
    }
    assert (a + Zeros(k))[..|a|] == a;
  }

  /** Decoding what p_setKeyDataFromKey stored gives the key back: the same
      SHORT or INT value, and for VARCHAR the string cut to MAX_VARCHAR_LEN
      characters, which a well-formed key already satisfies. */
  lemma LemmaKeyRoundTrip(k: Key)
    requires !k.kind.Unknown?
    ensures var d := DecodeKey(k.kind, EncodeKey(k).value);
      && d.kind == k.kind
      && (k.kind == Short ==> ShortKey(d) == ShortKey(k))
      && (k.kind == Int ==> IntKey(d) == IntKey(k))
      && (k.kind == Varchar ==>
            CString(d.keyval) == CString(k.keyval)[..Min(StrLen(k.keyval), MAX_VARCHAR_LEN)])
  {
    match k.kind
    case Short => LemmaShortRoundTrip(k);
    case Int => LemmaIntRoundTrip(k);
    case Varchar => LemmaVarcharRoundTrip(k);
  }

  lemma LemmaShortRoundTrip(k: Key)
    requires k.kind == Short
    ensures ShortKey(DecodeKey(Short, EncodeKey(k).value)) == ShortKey(k)
  {
    var e := EncodeSigned(ShortKey(k) as int, 4);
    assert Window(e, 4) == e;
    LemmaWithShortKey(ZeroKey(), DecodeSigned(e) as int32);
    LemmaSignedRoundTrip(ShortKey(k) as int, 4);
  }

  lemma LemmaIntRoundTrip(k: Key)
    requires k.kind == Int
    ensures IntKey(DecodeKey(Int, EncodeKey(k).value)) == IntKey(k)
  {
    var e := EncodeSigned(IntKey(k) as int, 8);
    assert Window(e, 8) == e;
    LemmaWithIntKey(ZeroKey().(kind := Int), DecodeSigned(e) as int64);
    LemmaSignedRoundTrip(IntKey(k) as int, 8);
  }

  lemma LemmaVarcharRoundTrip(k: Key)
    requires k.kind == Varchar
    ensures CString(DecodeKey(Varchar, EncodeKey(k).value).keyval)
      == CString(k.keyval)[..Min(StrLen(k.keyval), MAX_VARCHAR_LEN)]
  {
    var e := CString(k.keyval);
    var m := Min(|e|, MAX_VARCHAR_LEN);
    LemmaStrLenTerminated(e[..m], MAX_VARCHAR_LEN + 1 - m);
  }

  function Min(a: int, b: int): (m: int)
    ensures m <= a && m <= b && (m == a || m == b)
  {
    if a < b then a else b
  }

  /** For SHORT and INT keys the byte order Berkeley DB sorts by is the
      numeric order of the key values, in both directions. */
  lemma LemmaKeyOrder(k1: Key, k2: Key)
    requires k1.kind == k2.kind && (k1.kind == Short || k1.kind == Int)
    ensures k1.kind == Short ==>
      (ShortKey(k1) < ShortKey(k2) <==> ByteLess(EncodeKey(k1).value, EncodeKey(k2).value))
    ensures k1.kind == Int ==>
      (IntKey(k1) < IntKey(k2) <==> ByteLess(EncodeKey(k1).value, EncodeKey(k2).value))
  {
    if k1.kind == Short {
      LemmaSignedOrder(ShortKey(k1) as int, ShortKey(k2) as int, 4);
    } else {
      LemmaSignedOrder(IntKey(k1) as int, IntKey(k2) as int, 8);
    }
  }

  /** Keys of one SHORT or INT index have distinct stored bytes exactly when
      their values differ, so no two keys collide. */
  lemma LemmaKeyInjective(k1: Key, k2: Key)
    requires k1.kind == k2.kind && (k1.kind == Short || k1.kind == Int)
    ensures k1.kind == Short ==> (EncodeKey(k1) == EncodeKey(k2) <==> ShortKey(k1) == ShortKey(k2))
    ensures k1.kind == Int ==> (EncodeKey(k1) == EncodeKey(k2) <==> IntKey(k1) == IntKey(k2))
  {
    LemmaKeyRoundTrip(k1);
    LemmaKeyRoundTrip(k2);
  }
}
