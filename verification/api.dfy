/** The types of the contest's index interface that bdbimpl.c implements and
    unittests.c and tests/speed_test.c call: error codes, key types, keys and
    records, with the C-string conventions they rely on. The interface header
    itself (server.h) is not part of this model; its two buffer sizes are
    stated here as constants. */
module Api {
  import opened Bytes

  /** Signed 32-bit and 64-bit integers: the SHORT and INT key values. */
  newtype int32 = x: int | -0x8000_0000 <= x < 0x8000_0000
  newtype int64 = x: int | -0x8000_0000_0000_0000 <= x < 0x8000_0000_0000_0000

  /** A VARCHAR key holds at most this many characters before its NUL. */
  const MAX_VARCHAR_LEN: nat := 128
  /** A payload holds at most this many characters before its NUL. */
  const MAX_PAYLOAD_LEN: nat := 100

  /** The result codes every call of the interface returns. */
  datatype ErrCode =
    | Success
    | DbDne        // DB_DNE: no index of that name was created
    | DbExists     // DB_EXISTS: an index of that name already exists
    | DbEnd        // DB_END: the cursor ran past the last entry
    | KeyNotFound  // KEY_NOTFOUND
    | TxnDne       // TXN_DNE: no transaction is in progress
    | EntryExists  // ENTRY_EXISTS: the (key, payload) pair is already stored
    | EntryDne     // ENTRY_DNE: the (key, payload) pair is not stored
    | Deadlock     // DEADLOCK: Berkeley DB chose this call as a deadlock victim
    | Failure      // FAILURE: any other error

  /** The key type tag. `Unknown` stands for any other value the C enum can
      carry, which the encoder rejects. */
  datatype KeyType = Short | Int | Varchar | Unknown(tag: int)

  /** The bytes of a key's value union: the `charkey` buffer of
      MAX_VARCHAR_LEN + 1 bytes, whose first four bytes are also `shortkey`
      and whose first eight are also `intkey`. */
  type KeyVal = s: seq<byte> | |s| == MAX_VARCHAR_LEN + 1 witness seq(MAX_VARCHAR_LEN + 1, _ => 0)

  /** A key: the type tag and the value union. The tag says which view of
      the union is meant, but every view reads the same bytes, so a key
      retagged with another type reads what the old view wrote. */
  datatype Key = Key(kind: KeyType, keyval: KeyVal)

  /** A record: a key and the payload buffer (`char payload[MAX_PAYLOAD_LEN + 1]`). */
  datatype Record = Record(key: Key, payload: seq<byte>)

  /** `n` zero bytes, what `memset(..., 0, n)` writes. */
  function Zeros(n: nat): (z: seq<byte>)
    ensures |z| == n && forall i :: 0 <= i < n ==> z[i] == 0
  {
    seq(n, _ => 0)
  }

  /** `strlen`: the number of bytes before the first NUL (the whole buffer
      when it holds none). */
  function StrLen(s: seq<byte>): (n: nat)
    ensures n <= |s|
    ensures forall i :: 0 <= i < n ==> s[i] != 0
    ensures n < |s| ==> s[n] == 0
  {
    if s == [] || s[0] == 0 then 0 else 1 + StrLen(s[1..])
  }

  /** The C string a buffer holds: its bytes before the first NUL. */
  function CString(s: seq<byte>): (c: seq<byte>)
    ensures |c| == StrLen(s) && c <= s
    ensures forall i :: 0 <= i < |c| ==> c[i] != 0
  {
    s[..StrLen(s)]
  }

  /** `keyval.shortkey`: the signed 32-bit integer whose bit pattern is
      the first four bytes of the union, least significant first. */
  function ShortKey(k: Key): int32
  {
    Signed(FromLittleEndian(k.keyval[..4]), 4) as int32
  }

  /** `keyval.intkey`: the signed 64-bit integer whose bit pattern is the
      first eight bytes of the union, least significant first. */
  function IntKey(k: Key): int64
  {
    Signed(FromLittleEndian(k.keyval[..8]), 8) as int64
  }

  /** The bit pattern of `shortkey` is the first four bytes of the union. */
  lemma LemmaShortKeyBits(k: Key)
    ensures ShortKey(k) as int % Pow256(4) == FromLittleEndian(k.keyval[..4])
  {
    LemmaSignedBits(FromLittleEndian(k.keyval[..4]), 4);
  }

  /** The bit pattern of `intkey` is the first eight bytes of the union. */
  lemma LemmaIntKeyBits(k: Key)
    ensures IntKey(k) as int % Pow256(8) == FromLittleEndian(k.keyval[..8])
  {
    LemmaSignedBits(FromLittleEndian(k.keyval[..8]), 8);
  }

  /** `k.keyval.shortkey = v`: the first four bytes of the union are
      overwritten with the bit pattern of v and the rest are kept. */
  function WithShortKey(k: Key, v: int32): Key
  {
    k.(keyval := LittleEndian(v as int % Pow256(4), 4) + k.keyval[4..])
  }

  /** `k.keyval.intkey = v`: the first eight bytes of the union are
      overwritten with the bit pattern of v and the rest are kept. */
  function WithIntKey(k: Key, v: int64): Key
  {
    k.(keyval := LittleEndian(v as int % Pow256(8), 8) + k.keyval[8..])
  }

  /** After `shortkey` is assigned it reads back the value, and the kind
      and every union byte from the fifth on are unchanged. */
  lemma LemmaWithShortKey(k: Key, v: int32)
    ensures WithShortKey(k, v).kind == k.kind && ShortKey(WithShortKey(k, v)) == v
    ensures WithShortKey(k, v).keyval[4..] == k.keyval[4..]
  {
    var u := v as int % Pow256(4);
    assert WithShortKey(k, v).keyval[..4] == LittleEndian(u, 4);
    LemmaFromLittleEndian(u, 4);
    LemmaDivModUnique(u, Pow256(4), 0, u);
    LemmaSignedMod(v as int, 4);
  }

  /** After `intkey` is assigned it reads back the value, and the kind and
      every union byte from the ninth on are unchanged. */
  lemma LemmaWithIntKey(k: Key, v: int64)
    ensures WithIntKey(k, v).kind == k.kind && IntKey(WithIntKey(k, v)) == v
    ensures WithIntKey(k, v).keyval[8..] == k.keyval[8..]
  {
    var u := v as int % Pow256(8);
    assert WithIntKey(k, v).keyval[..8] == LittleEndian(u, 8);
    LemmaFromLittleEndian(u, 8);
    LemmaDivModUnique(u, Pow256(8), 0, u);
    LemmaSignedMod(v as int, 8);
  }

  /** The views share their low bytes: `shortkey` is always the low 32 bits
      of `intkey`. So a key written as an INT and read as a SHORT gives
      the INT's low word. */
  lemma LemmaShortIsLowWord(k: Key)
    ensures ShortKey(k) as int % Pow256(4) == IntKey(k) as int % Pow256(4)
  {
    var p4, p8 := Pow256(4), Pow256(8);
    var u8 := FromLittleEndian(k.keyval[..8]);
    var i := IntKey(k) as int;
    assert k.keyval[..8][..4] == k.keyval[..4];
    LemmaLittleEndianPrefix(k.keyval[..8], 4);
    var a, w := u8 / p4, u8 % p4;
    assert u8 == a * p4 + w;
    assert p8 == p4 * p4;
    LemmaShortKeyBits(k);
    var t := if i < 0 then 1 else 0;
    assert i == u8 as int - t * p8;
    LemmaMulSub(a as int, t * p4, p4);
    LemmaDivModUnique(i, p4, a as int - t * p4, w);
  }

  /** A key whose bytes are all zero: tag 0 is the first enumerator, SHORT. */
  function ZeroKey(): (k: Key)
    ensures k.kind == Short && k.keyval == Zeros(MAX_VARCHAR_LEN + 1)
    ensures ShortKey(k) == 0 && IntKey(k) == 0
  {
    var k := Key(Short, Zeros(MAX_VARCHAR_LEN + 1));
    LemmaFromLittleEndianZeros(k.keyval[..4]);
    LemmaFromLittleEndianZeros(k.keyval[..8]);
    k
  }

  /** A buffer whose first `MAX_PAYLOAD_LEN` bytes are zero: the "no payload"
      that deleteRecord compares against with `memcmp`. */
  predicate IsNullPayload(p: seq<byte>)
  {
    forall i :: 0 <= i < |p| && i < MAX_PAYLOAD_LEN ==> p[i] == 0
  }

  /** The bytes a C string occupies including its terminator,
      `strlen(p) + 1` bytes: what insertRecord hands to Berkeley DB. */
  function StoredPayload(p: seq<byte>): (d: seq<byte>)
    ensures |d| == StrLen(p) + 1 && d[|d| - 1] == 0
  {
    CString(p) + [0]
  }
}
