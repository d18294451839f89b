/**
 * Keys of the FoundationDB backend and the fixed-width encoding of the
 * u64 values (timestamps, counters) stored under them.
 *
 * The byte layout that `.serialize()` gives each key is not part of this
 * model: a key is a value of a datatype, and two keys are the same key
 * exactly when their components are equal.
 */
module FdbKeys {
  import opened Wrappers
  import opened Ints

  /** Keys whose values are plain byte strings. */
  datatype Key =
    | ValueKey(accountId: u32, collection: u8, documentId: u32, family: u8, field: u8)
    | IndexKey(accountId: u32, collection: u8, documentId: u32, field: u8, key: Bytes)
    | AclKey(grantAccountId: u32, toAccountId: u32, toCollection: u8, toDocumentId: u32)
    | LogKey(accountId: u32, collection: u8, changeId: u64)
      /** SUBSPACE_VALUES followed by the account id: the change-id counter. */
    | ChangeIdCounterKey(accountId: u32)

  /** Keys of dense bitmaps, one per block of document ids. */
  datatype BitmapKey = BitmapKey(accountId: u32, collection: u8, family: u8, field: u8, blockNum: u32, key: Bytes)

  /**
   * The key under which a document id reservation is kept: an index key
   * with field u8::MAX and an empty index value.
   */
  function ReservationKey(accountId: u32, collection: u8, documentId: u32): Key
  {
    IndexKey(accountId, collection, documentId, U8_MAX, [])
  }

  /**
   * Family and field of the bitmap that `BitmapKey::document_ids` builds.
   * That constructor is not part of this model; the model only needs these
   * to be fixed values.
   */
  const DOCUMENT_IDS_FAMILY: u8 := 0
  const DOCUMENT_IDS_FIELD: u8 := U8_MAX

  /** The bitmap of used document ids of one account and collection, block `blockNum`. */
  function DocumentIdsKey(accountId: u32, collection: u8, blockNum: u32): BitmapKey
  {
    BitmapKey(accountId, collection, DOCUMENT_IDS_FAMILY, DOCUMENT_IDS_FIELD, blockNum, [])
  }

  function Pow256(n: nat): (p: nat)
    ensures p > 0
  {
    if n == 0 then 1 else 256 * Pow256(n - 1)
  }

  /** The `n` low-order bytes of `x`, most significant first. */
  function BigEndian(x: nat, n: nat): (b: Bytes)
    ensures |b| == n
  {
    if n == 0 then [] else BigEndian(x / 256, n - 1) + [(x % 256) as byte]
  }

  /** The number whose big-endian bytes are `b`. */
  function FromBigEndian(b: Bytes): nat
  {
    if b == [] then 0 else FromBigEndian(b[..|b| - 1]) * 256 + b[|b| - 1]
  }

  lemma {:induction false} FromBigEndianBound(b: Bytes)
    ensures FromBigEndian(b) < Pow256(|b|)
  {
    if b != [] {
      var p := b[..|b| - 1];
      FromBigEndianBound(p);
      assert FromBigEndian(p) + 1 <= Pow256(|p|);
      assert (FromBigEndian(p) + 1) * 256 <= Pow256(|p|) * 256;
    }
  }

  lemma {:induction false} BigEndianRoundTrip(x: nat, n: nat)
    requires x < Pow256(n)
    ensures FromBigEndian(BigEndian(x, n)) == x
  {
    if n > 0 {
      assert x / 256 < Pow256(n - 1);
      BigEndianRoundTrip(x / 256, n - 1);
      var b := BigEndian(x, n);
      assert b[..n - 1] == BigEndian(x / 256, n - 1);
    }
  }

  lemma {:induction false} FromBigEndianRoundTrip(b: Bytes)
    ensures BigEndian(FromBigEndian(b), |b|) == b
  {
    if b != [] {
      var p := b[..|b| - 1];
      FromBigEndianRoundTrip(p);
      var v := FromBigEndian(b);
      assert v / 256 == FromBigEndian(p);
      assert v % 256 == b[|b| - 1];
      assert b == p + [b[|b| - 1]];
    }
  }

  lemma Pow256Of8()
    ensures Pow256(8) == U64_MAX + 1
  {
    assert Pow256(2) == 65536;
    assert Pow256(4) == 65536 * 65536 by {
      assert Pow256(3) == 256 * 65536;
    }
    assert Pow256(6) == 256 * 256 * Pow256(4) by {
      assert Pow256(5) == 256 * Pow256(4);
    }
    assert Pow256(8) == 256 * 256 * Pow256(6) by {
      assert Pow256(7) == 256 * Pow256(6);
    }
  }

  /** `u64::serialize`: eight bytes, big-endian. */
  function EncodeU64(x: u64): (b: Bytes)
    ensures |b| == 8
  {
    BigEndian(x, 8)
  }

  /** `u64::deserialize`: fails unless given exactly eight bytes. */
  function DecodeU64(b: Bytes): (r: Option<u64>)
    ensures r.Some? <==> |b| == 8
  {
    if |b| != 8 then None
    else
      FromBigEndianBound(b);
      Pow256Of8();
      Some(FromBigEndian(b))
  }

  /** Decoding undoes encoding. */
  lemma DecodeEncodeU64(x: u64)
    ensures DecodeU64(EncodeU64(x)) == Some(x)
  {
    Pow256Of8();
    BigEndianRoundTrip(x, 8);
  }

  /** Encoding undoes decoding, so a decodable value has exactly one encoding. */
  lemma EncodeDecodeU64(b: Bytes)
    requires |b| == 8
    ensures DecodeU64(b).Some? && EncodeU64(DecodeU64(b).value) == b
  {
    FromBigEndianRoundTrip(b);
  }
}
