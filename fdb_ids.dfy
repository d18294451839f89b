/**
 * The two id allocators of the FoundationDB backend: the document id
 * chooser of `assign_document_id` (reuse an expired reservation, else a
 * free slot of a document-id bitmap, else the lowest unreserved id of the
 * first block) and the per-account change id counter of
 * `assign_change_id`.
 */
module FdbIds {
  import opened Wrappers
  import opened Ints
  import opened FdbKeys
  import opened FdbBatch

  /** Seconds after which a document id reservation expires. */
  const ID_ASSIGNMENT_EXPIRY: nat := 60 * 60

  /**
   * Ids per dense bitmap block. The constant is defined in the bitmap
   * module, which is not part of this model; the fallback id 1024 of the
   * allocator equals it.
   */
  const BITS_PER_BLOCK: nat := 1024

  /** `now() - ID_ASSIGNMENT_EXPIRY` in u64 arithmetic (wrapping, as a release build does). */
  function ExpiredTimestamp(now: u64): (t: u64)
    ensures now >= ID_ASSIGNMENT_EXPIRY ==> t == now - ID_ASSIGNMENT_EXPIRY
    ensures now < ID_ASSIGNMENT_EXPIRY ==> t == now + U64_MAX + 1 - ID_ASSIGNMENT_EXPIRY
  {
    (now - ID_ASSIGNMENT_EXPIRY) % (U64_MAX + 1)
  }

  /** The ids whose reservations the first range read returns: document ids below u32::MAX. */
  function ReservationIds(values: KV, accountId: u32, collection: u8): (ids: set<u32>)
    ensures forall d: u32 :: d in ids <==> d < U32_MAX && ReservationKey(accountId, collection, d) in values
  {
    set k | k in values.Keys && k.IndexKey? && k.accountId == accountId && k.collection == collection &&
            k.field == U8_MAX && k.key == [] && k.documentId < U32_MAX :: k.documentId
  }

  /** The timestamp stored with the reservation of `d`, if it decodes. */
  function ReservationTime(values: KV, accountId: u32, collection: u8, d: u32): Option<u64>
    requires ReservationKey(accountId, collection, d) in values
  {
    DecodeU64(values[ReservationKey(accountId, collection, d)])
  }

  /** Some reservation of the range holds a value that is not a u64. */
  ghost predicate ScanFails(values: KV, accountId: u32, collection: u8)
  {
    exists d :: d in ReservationIds(values, accountId, collection) && ReservationTime(values, accountId, collection, d).None?
  }

  /** `d` has a reservation whose timestamp is at most `expiredTimestamp`. */
  ghost predicate ExpiredAt(values: KV, accountId: u32, collection: u8, expiredTimestamp: u64, d: u32)
  {
    d in ReservationIds(values, accountId, collection) &&
    var t := ReservationTime(values, accountId, collection, d);
    t.Some? && t.value <= expiredTimestamp
  }

  /** `d` has a reservation that has not expired yet. */
  ghost predicate ReservedAt(values: KV, accountId: u32, collection: u8, expiredTimestamp: u64, d: u32)
  {
    d in ReservationIds(values, accountId, collection) &&
    var t := ReservationTime(values, accountId, collection, d);
    t.Some? && t.value > expiredTimestamp
  }

  /** What a successful reservation scan yields: the reserved set and the expired list. */
  ghost predicate ScanOk(values: KV, accountId: u32, collection: u8, expiredTimestamp: u64,
                         reserved: set<u32>, expired: seq<u32>)
  {
    (forall d :: d in reserved <==> ReservedAt(values, accountId, collection, expiredTimestamp, d)) &&
    (forall d :: d in expired <==> ExpiredAt(values, accountId, collection, expiredTimestamp, d))
  }

  /**
   * The first loop of `assign_document_id`: sort the reservations of the
   * account and collection into expired ones and reserved ones, failing
   * when a stored timestamp does not decode. (The store reads in key
   * order; neither the sets nor the failure depend on that order.)
   */
  method ScanReservations(values: KV, accountId: u32, collection: u8, expiredTimestamp: u64)
    returns (r: Result<(set<u32>, seq<u32>), Error>)
    ensures r.Err? <==> ScanFails(values, accountId, collection)
    ensures r.Err? ==> r.error == DeserializeError
    ensures r.Ok? ==> ScanOk(values, accountId, collection, expiredTimestamp, r.value.0, r.value.1)
  {
    var ids := ReservationIds(values, accountId, collection);
    var pending := ids;
    var reserved: set<u32> := {};
    var expired: seq<u32> := [];
    while pending != {}
      invariant pending <= ids
      invariant forall d :: d in ids && d !in pending ==> ReservationTime(values, accountId, collection, d).Some?
      invariant forall d :: d in reserved <==> d !in pending && ReservedAt(values, accountId, collection, expiredTimestamp, d)
      invariant forall d :: d in expired <==> d !in pending && ExpiredAt(values, accountId, collection, expiredTimestamp, d)
      decreases pending
    {
      var d :| d in pending;
      var t := ReservationTime(values, accountId, collection, d);
      if t.None? {
        return Err(DeserializeError);
      }
      if t.value <= expiredTimestamp {
        expired := expired + [d];
      } else {
        reserved := reserved + {d};
      }
      pending := pending - {d};
    }
    r := Ok((reserved, expired));
  }

  /** Block `b` of the document-id bitmaps exists and offers id `id`. */
  ghost predicate BlockOffers(bitmaps: Bitmaps, accountId: u32, collection: u8, reserved: set<u32>,
                              nextAvailable: (set<u32>, u32, set<u32>) -> Option<u32>, b: u32, id: u32)
  {
    var key := DocumentIdsKey(accountId, collection, b);
    key in bitmaps && nextAvailable(bitmaps[key], b, reserved) == Some(id)
  }

  /** Block `b` of the document-id bitmaps is absent or offers nothing. */
  ghost predicate BlockFull(bitmaps: Bitmaps, accountId: u32, collection: u8, reserved: set<u32>,
                            nextAvailable: (set<u32>, u32, set<u32>) -> Option<u32>, b: u32)
  {
    var key := DocumentIdsKey(accountId, collection, b);
    key !in bitmaps || nextAvailable(bitmaps[key], b, reserved).None?
  }

  /** `found` is what the first block (in ascending block order) that offers an id offers. */
  ghost predicate FirstFreeBlock(bitmaps: Bitmaps, accountId: u32, collection: u8, reserved: set<u32>,
                                 nextAvailable: (set<u32>, u32, set<u32>) -> Option<u32>, found: Option<u32>)
  {
    (found.None? ==> forall b: u32 :: b < U32_MAX ==> BlockFull(bitmaps, accountId, collection, reserved, nextAvailable, b)) &&
    (found.Some? ==>
       exists b: u32 ::
         b < U32_MAX &&
         BlockOffers(bitmaps, accountId, collection, reserved, nextAvailable, b, found.value) &&
         forall b': u32 :: b' < b ==> BlockFull(bitmaps, accountId, collection, reserved, nextAvailable, b'))
  }

  /**
   * The second range read of `assign_document_id`: the document-id bitmap
   * blocks in ascending block order (block numbers below u32::MAX), asking
   * `next_available_index` of each and stopping at the first answer.
   */
  method ScanBlocks(bitmaps: Bitmaps, accountId: u32, collection: u8, reserved: set<u32>,
                    nextAvailable: (set<u32>, u32, set<u32>) -> Option<u32>)
    returns (found: Option<u32>)
    ensures FirstFreeBlock(bitmaps, accountId, collection, reserved, nextAvailable, found)
  {
    var b: u32 := 0;
    while b < U32_MAX
      invariant forall b': u32 :: b' < b ==> BlockFull(bitmaps, accountId, collection, reserved, nextAvailable, b')
    {
      var key := DocumentIdsKey(accountId, collection, b);
      if key in bitmaps {
        var next := nextAvailable(bitmaps[key], b, reserved);
        if next.Some? {
          assert BlockOffers(bitmaps, accountId, collection, reserved, nextAvailable, b, next.value);
          return next;
        }
      }
      b := b + 1;
    }
    return None;
  }

  /**
   * `id` is the smallest id in [0, BITS_PER_BLOCK) that is not reserved,
   * or 1024 when all of them are.
   */
  ghost predicate IsLeastUnreserved(reserved: set<u32>, id: int)
  {
    (id < BITS_PER_BLOCK && id !in reserved && forall d :: 0 <= d < id ==> d in reserved) ||
    (id == 1024 && forall d :: 0 <= d < BITS_PER_BLOCK ==> d in reserved)
  }

  /** The allocator's order of preference. */
  ghost predicate ChoiceOk(reserved: set<u32>, expired: seq<u32>, found: Option<u32>, id: u32)
  {
    (expired != [] ==> id in expired) &&
    (expired == [] && found.Some? && found.value != U32_MAX ==> id == found.value) &&
    (expired == [] && (found.None? || found.value == U32_MAX) ==> IsLeastUnreserved(reserved, id))
  }

  /**
   * The choice of `assign_document_id`: a random expired id when there is
   * one, else the id the bitmap scan found, else (the u32::MAX sentinel
   * still standing) the first unreserved id of the first block, 1024 when
   * none is free. The random pick is a nondeterministic choice.
   */
  method ChooseDocumentId(reserved: set<u32>, expired: seq<u32>, found: Option<u32>) returns (id: u32)
    requires forall i :: 0 <= i < |expired| ==> expired[i] < U32_MAX
    ensures ChoiceOk(reserved, expired, found, id)
  {
    id := U32_MAX;
    if expired != [] {
      if |expired| > 1 {
        var i :| 0 <= i < |expired|;
        id := expired[i];
      } else {
        id := expired[0];
      }
    } else if found.Some? {
      id := found.value;
    }
    if id == U32_MAX {
      id := 1024;
      var d := 0;
      while d < BITS_PER_BLOCK
        invariant 0 <= d <= BITS_PER_BLOCK
        invariant forall e :: 0 <= e < d ==> e in reserved
      {
        if d !in reserved {
          id := d;
          break;
        }
        d := d + 1;
      }
    }
  }

  // ---------------------------------------------------------------------
  // Change ids

  /**
   * The change id `assign_change_id` hands out for an account: 0 when its
   * counter is absent, else the stored value plus one (wrapping at 2^64,
   * as a release build does).
   */
  function NextChangeId(values: KV, accountId: u32): (r: Result<u64, Error>)
    ensures ChangeIdCounterKey(accountId) !in values ==> r == Ok(0)
    ensures r.Err? <==> ChangeIdCounterKey(accountId) in values && |values[ChangeIdCounterKey(accountId)]| != 8
  {
    var counter := ChangeIdCounterKey(accountId);
    if counter !in values then Ok(0)
    else
      match DecodeU64(values[counter])
      case None => Err(DeserializeError)
      case Some(v) => Ok((v + 1) % (U64_MAX + 1))
  }

  /** The store after a change id has been assigned: the counter holds the id handed out. */
  function RecordChangeId(values: KV, accountId: u32, id: u64): KV
  {
    values[ChangeIdCounterKey(accountId) := EncodeU64(id)]
  }

  /** A counter holding `c` makes the next id `c + 1`, wrapping to 0 after u64::MAX. */
  lemma NextAfterCounter(values: KV, accountId: u32, c: u64)
    requires ChangeIdCounterKey(accountId) in values && values[ChangeIdCounterKey(accountId)] == EncodeU64(c)
    ensures NextChangeId(values, accountId) == Ok(if c < U64_MAX then c + 1 else 0)
  {
    DecodeEncodeU64(c);
    if c < U64_MAX {
      assert (c + 1) % (U64_MAX + 1) == c + 1;
    } else {
      assert (c + 1) % (U64_MAX + 1) == 0;
    }
  }

  /** After handing out `id` below u64::MAX, the next call for the account hands out `id + 1`. */
  lemma ChangeIdsIncrease(values: KV, accountId: u32, id: u64)
    requires NextChangeId(values, accountId) == Ok(id) && id < U64_MAX
    ensures NextChangeId(RecordChangeId(values, accountId, id), accountId) == Ok(id + 1)
  {
    NextAfterCounter(RecordChangeId(values, accountId, id), accountId, id);
  }

  /** Assigning a change id for one account leaves every other account's next id unchanged. */
  lemma ChangeIdsPerAccount(values: KV, accountId: u32, id: u64, other: u32)
    requires other != accountId
    ensures NextChangeId(RecordChangeId(values, accountId, id), other) == NextChangeId(values, other)
  {
  }

  /** The ids `n` successive committed calls for one account hand out. */
  function ChangeIds(values: KV, accountId: u32, n: nat): Result<seq<u64>, Error>
    decreases n
  {
    if n == 0 then Ok([])
    else
      match NextChangeId(values, accountId)
      case Err(e) => Err(e)
      case Ok(id) =>
        match ChangeIds(RecordChangeId(values, accountId, id), accountId, n - 1)
        case Err(e) => Err(e)
        case Ok(rest) => Ok([id] + rest)
  }

  /** With the counter at `c`, the next `n` calls hand out c + 1, ..., c + n. */
  lemma {:induction false} ChangeIdsAfter(values: KV, accountId: u32, c: u64, n: nat)
    requires ChangeIdCounterKey(accountId) in values && values[ChangeIdCounterKey(accountId)] == EncodeU64(c)
    requires c + n <= U64_MAX
    ensures ChangeIds(values, accountId, n).Ok?
    ensures var ids := ChangeIds(values, accountId, n).value;
            |ids| == n && forall i :: 0 <= i < n ==> ids[i] == c + 1 + i
    decreases n
  {
    if n > 0 {
      NextAfterCounter(values, accountId, c);
      var after := RecordChangeId(values, accountId, c + 1);
      ChangeIdsAfter(after, accountId, c + 1, n - 1);
      var rest := ChangeIds(after, accountId, n - 1).value;
      assert ChangeIds(values, accountId, n) == Ok([c + 1] + rest);
    }
  }

  /** Starting from an absent counter, successive calls hand out 0, 1, 2, ... */
  lemma ChangeIdsFromZero(values: KV, accountId: u32, n: nat)
    requires ChangeIdCounterKey(accountId) !in values
    requires n <= U64_MAX + 1
    ensures ChangeIds(values, accountId, n).Ok?
    ensures var ids := ChangeIds(values, accountId, n).value;
            |ids| == n && forall i :: 0 <= i < n ==> ids[i] == i
  {
    if n > 0 {
      var after := RecordChangeId(values, accountId, 0);
      ChangeIdsAfter(after, accountId, 0, n - 1);
      var rest := ChangeIds(after, accountId, n - 1).value;
      assert ChangeIds(values, accountId, n) == Ok([0] + rest);
    }
  }
}
