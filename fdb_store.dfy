/**
 * The FoundationDB store: the batch writer and the two id allocators as
 * methods of a `Store` whose state is the key-value space and the dense
 * bitmaps. The environment (commit outcomes, which stand for conflicts,
 * fatal errors and the commit-time budget) is a parameter.
 */
module FdbStore {
  import opened Wrappers
  import opened Ints
  import opened FdbKeys
  import opened FdbBatch
  import opened FdbIds

  /** The loop of atomic `BitOr` mutations over the set group. */
  method OrInto(bm: Bitmaps, g: Bitmaps) returns (r: Bitmaps)
    ensures r == BitOr(bm, g)
  {
    r := bm;
    var pending := g.Keys;
    while pending != {}
      invariant pending <= g.Keys
      invariant r.Keys == bm.Keys + (g.Keys - pending)
      invariant forall k :: k in r && k in pending ==> r[k] == Get(bm, k)
      invariant forall k :: k in r && k !in pending ==> r[k] == Get(bm, k) + Get(g, k)
      decreases pending
    {
      var k :| k in pending;
      r := r[k := Get(r, k) + g[k]];
      pending := pending - {k};
    }
    OrComplete(bm, g, r);
  }

  /** A map that agrees with `BitOr(bm, g)` under every key is that map. */
  lemma OrComplete(bm: Bitmaps, g: Bitmaps, r: Bitmaps)
    requires r.Keys == bm.Keys + g.Keys
    requires forall k :: k in r ==> r[k] == Get(bm, k) + Get(g, k)
    ensures r == BitOr(bm, g)
  {
    var expected := BitOr(bm, g);
    assert r.Keys == expected.Keys;
    assert forall k :: k in r ==> r[k] == expected[k];
  }

  /** The loop of atomic `BitXor` mutations over the clear group. */
  method XorInto(bm: Bitmaps, g: Bitmaps) returns (r: Bitmaps)
    ensures r == BitXor(bm, g)
  {
    r := bm;
    var pending := g.Keys;
    while pending != {}
      invariant pending <= g.Keys
      invariant r.Keys == bm.Keys + (g.Keys - pending)
      invariant forall k :: k in r && k in pending ==> r[k] == Get(bm, k)
      invariant forall k :: k in r && k !in pending ==> r[k] == SymmetricDifference(Get(bm, k), Get(g, k))
      decreases pending
    {
      var k :| k in pending;
      r := r[k := SymmetricDifference(Get(r, k), g[k])];
      pending := pending - {k};
    }
    XorComplete(bm, g, r);
  }

  /** A map that agrees with `BitXor(bm, g)` under every key is that map. */
  lemma XorComplete(bm: Bitmaps, g: Bitmaps, r: Bitmaps)
    requires r.Keys == bm.Keys + g.Keys
    requires forall k :: k in r ==> r[k] == SymmetricDifference(Get(bm, k), Get(g, k))
    ensures r == BitXor(bm, g)
  {
    var expected := BitXor(bm, g);
    assert r.Keys == expected.Keys;
    assert forall k :: k in r ==> r[k] == expected[k];
  }

  /**
   * The document id `assign_document_id` picks, given the store it reads:
   * some scan of the reservations, the bitmap scan (made only when no
   * reservation has expired) and the order of preference.
   */
  ghost predicate DocumentIdChoice(values: KV, bitmaps: Bitmaps, accountId: u32, collection: u8, now: u64,
                                   nextAvailable: (set<u32>, u32, set<u32>) -> Option<u32>, id: u32)
  {
    exists reserved: set<u32>, expired: seq<u32>, found: Option<u32> ::
      ScanOk(values, accountId, collection, ExpiredTimestamp(now), reserved, expired) &&
      (expired == [] ==> FirstFreeBlock(bitmaps, accountId, collection, reserved, nextAvailable, found)) &&
      ChoiceOk(reserved, expired, found, id)
  }

  /**
   * When `next_available_index` never offers a reserved id, the id picked
   * holds no live reservation, except for the fallback 1024, which is
   * handed out whenever ids 0 to 1023 are all reserved and nothing else is
   * found, reserved or not.
   */
  lemma ChosenIdNotReserved(values: KV, bitmaps: Bitmaps, accountId: u32, collection: u8, now: u64,
                            nextAvailable: (set<u32>, u32, set<u32>) -> Option<u32>, id: u32)
    requires forall bm, b, res, n :: nextAvailable(bm, b, res) == Some(n) ==> n !in res
    requires DocumentIdChoice(values, bitmaps, accountId, collection, now, nextAvailable, id)
    ensures id == 1024 || !ReservedAt(values, accountId, collection, ExpiredTimestamp(now), id)
  {
    var reserved: set<u32>, expired: seq<u32>, found: Option<u32> :|
      ScanOk(values, accountId, collection, ExpiredTimestamp(now), reserved, expired) &&
      (expired == [] ==> FirstFreeBlock(bitmaps, accountId, collection, reserved, nextAvailable, found)) &&
      ChoiceOk(reserved, expired, found, id);
    if expired == [] && found.Some? && found.value != U32_MAX {
      var b: u32 :| b < U32_MAX && BlockOffers(bitmaps, accountId, collection, reserved, nextAvailable, b, found.value);
      assert id !in reserved;
    }
  }

  /** The batch functions for the first i + 1 operations, in terms of the first i. */
  lemma PrefixStep(batch: seq<Operation>, i: nat, values: KV, matches: (Bytes, Bytes) -> bool, blockNum: u32 -> u32)
    requires i < |batch|
    ensures var ctx := ContextAfter(batch[..i]);
      ContextAfter(batch[..i + 1]) == NextContext(ctx, batch[i]) &&
      Exec(batch[..i + 1], values, matches) ==
        (match Exec(batch[..i], values, matches)
         case None => None
         case Some(view) =>
           if AssertFails(ctx, view, batch[i], matches) then None
           else match WriteOf(ctx, batch[i])
             case None => Some(view)
             case Some(w) => Some(ApplyWrite(view, w))) &&
      (forall isSet :: Groups(batch[..i + 1], isSet, blockNum) ==
        if batch[i].Bitmap? && batch[i].isSet == isSet
        then AddToGroup(Groups(batch[..i], isSet, blockNum), BitmapKeyOf(ctx, batch[i], blockNum), ctx.documentId)
        else Groups(batch[..i], isSet, blockNum))
  {
    assert Init(batch[..i + 1]) == batch[..i] && Last(batch[..i + 1]) == batch[i];
  }

  /**
   * One pass of `Store::write` over the batch inside a transaction: the
   * running context, the transaction's view of the values, the abort on a
   * failed assert and, when `gather` holds (the first attempt), the bitmap
   * groups.
   */
  method RunOps(batch: seq<Operation>, values: KV, matches: (Bytes, Bytes) -> bool, blockNum: u32 -> u32,
                gather: bool, setBitmaps: Bitmaps, clearBitmaps: Bitmaps)
    returns (aborted: bool, view: KV, setGroups: Bitmaps, clearGroups: Bitmaps)
    requires gather ==> setBitmaps == map[] && clearBitmaps == map[]
    ensures aborted <==> Exec(batch, values, matches).None?
    ensures !aborted ==> view == Exec(batch, values, matches).value
    ensures !aborted && gather ==>
      setGroups == Groups(batch, true, blockNum) && clearGroups == Groups(batch, false, blockNum)
    ensures !gather ==> setGroups == setBitmaps && clearGroups == clearBitmaps
  {
    var accountId: u32 := U32_MAX;
    var collection: u8 := U8_MAX;
    var documentId: u32 := U32_MAX;
    view := values;
    setGroups := setBitmaps;
    clearGroups := clearBitmaps;
    var i := 0;
    while i < |batch|
      invariant 0 <= i <= |batch|
      invariant Context(accountId, collection, documentId) == ContextAfter(batch[..i])
      invariant Exec(batch[..i], values, matches) == Some(view)
      invariant gather ==>
        setGroups == Groups(batch[..i], true, blockNum) && clearGroups == Groups(batch[..i], false, blockNum)
      invariant !gather ==> setGroups == setBitmaps && clearGroups == clearBitmaps
    {
      var op := batch[i];
      PrefixStep(batch, i, values, matches, blockNum);
      match op {
        case AccountId(a) => accountId := a;
        case Collection(c) => collection := c;
        case DocumentId(d) => documentId := d;
        case Value(family, field, value) =>
          var key := ValueKey(accountId, collection, documentId, family, field);
          if value.Some? {
            view := view[key := value.value];
          } else {
            view := view - {key};
          }
        case Index(field, key, isSet) =>
          var k := IndexKey(accountId, collection, documentId, field, key);
          if isSet {
            view := view[k := []];
          } else {
            view := view - {k};
          }
        case Bitmap(family, field, key, isSet) =>
          if gather {
            var k := BitmapKey(accountId, collection, family, field, blockNum(documentId), key);
            if isSet {
              setGroups := AddToGroup(setGroups, k, documentId);
            } else {
              clearGroups := AddToGroup(clearGroups, k, documentId);
            }
          }
        case Acl(grant, value) =>
          var key := AclKey(grant, accountId, collection, documentId);
          if value.Some? {
            view := view[key := value.value];
          } else {
            view := view - {key};
          }
        case Log(logCollection, changeId, entry) =>
          view := view[LogKey(accountId, logCollection, changeId) := entry];
        case AssertValue(family, field, assertValue) =>
          var key := ValueKey(accountId, collection, documentId, family, field);
          if key !in view || !matches(assertValue, view[key]) {
            AbortExtends(batch, values, matches, i + 1);
            return true, view, setGroups, clearGroups;
          }
      }
      i := i + 1;
    }
    assert batch[..|batch|] == batch;
    aborted := false;
  }

  class Store {
    /** The key-value space (values, indexes, ACLs, log entries, counters). */
    var values: KV
    /** The dense bitmaps, one set of document ids per bitmap key and block. */
    var bitmaps: Bitmaps

    constructor (values: KV, bitmaps: Bitmaps)
      ensures this.values == values && this.bitmaps == bitmaps
    {
      this.values := values;
      this.bitmaps := bitmaps;
    }

    /**
     * `Store::write`: run the batch in one transaction, retrying on
     * conflicts. The bitmap groups are gathered on the first attempt only
     * and reused by the retries. An assert that fails aborts without a
     * retry.
     */
    method Write(batch: seq<Operation>, matches: (Bytes, Bytes) -> bool, blockNum: u32 -> u32,
                 outcomes: seq<CommitOutcome>) returns (r: Result<(), Error>)
      modifies this
      ensures r == WriteResult(old(values), batch, matches, outcomes)
      ensures r.Ok? ==> values == Exec(batch, old(values), matches).value
      ensures r.Ok? ==> bitmaps == ApplyBitmaps(old(bitmaps), Groups(batch, true, blockNum), Groups(batch, false, blockNum))
      ensures r.Err? ==> values == old(values) && bitmaps == old(bitmaps)
    {
      var retryCount := 0;
      var setBitmaps: Bitmaps := map[];
      var clearBitmaps: Bitmaps := map[];
      while true
        invariant values == old(values) && bitmaps == old(bitmaps)
        invariant retryCount == 0 ==> setBitmaps == map[] && clearBitmaps == map[]
        invariant retryCount > 0 ==>
          setBitmaps == Groups(batch, true, blockNum) && clearBitmaps == Groups(batch, false, blockNum)
        invariant CommitRun(outcomes, MAX_COMMIT_ATTEMPTS, 0) == CommitRun(outcomes, MAX_COMMIT_ATTEMPTS, retryCount)
        invariant retryCount == 0 || retryCount < |outcomes|
        decreases |outcomes| - retryCount
      {
        var aborted, view;
        aborted, view, setBitmaps, clearBitmaps := RunOps(batch, values, matches, blockNum, retryCount == 0, setBitmaps, clearBitmaps);
        if aborted {
          return Err(AssertValueFailed);
        }
        var ored := OrInto(bitmaps, setBitmaps);
        var written := XorInto(ored, clearBitmaps);
        match OutcomeAt(outcomes, retryCount) {
          case Committed =>
            values := view;
            bitmaps := written;
            return Ok(());
          case Fatal =>
            return Err(FdbError);
          case Conflict =>
            if retryCount < MAX_COMMIT_ATTEMPTS && retryCount + 1 < |outcomes| {
              retryCount := retryCount + 1;
            } else {
              return Err(FdbError);
            }
        }
      }
    }

    /**
     * `Store::assign_document_id`: pick an id and reserve it by storing
     * the current time under its reservation key, retrying (with a fresh
     * scan) on conflicts while time remains. The clock is read twice on
     * each attempt: `scanClock(n)` is the reading the expiry threshold of
     * attempt `n` is computed from, `reserveClock(n)` the timestamp that
     * attempt stores.
     */
    method AssignDocumentId(accountId: u32, collection: u8, scanClock: nat -> u64, reserveClock: nat -> u64,
                            nextAvailable: (set<u32>, u32, set<u32>) -> Option<u32>,
                            outcomes: seq<CommitOutcome>) returns (r: Result<u32, Error>)
      modifies this
      ensures r.Err? <==> ScanFails(old(values), accountId, collection) || CommitRun(outcomes, |outcomes|, 0).Err?
      ensures r.Err? ==> r.error == if ScanFails(old(values), accountId, collection) then DeserializeError else FdbError
      ensures r.Err? ==> values == old(values)
      ensures r.Ok? ==>
        var attempt := CommitRun(outcomes, |outcomes|, 0).value;
        values == old(values)[ReservationKey(accountId, collection, r.value) := EncodeU64(reserveClock(attempt))] &&
        DocumentIdChoice(old(values), old(bitmaps), accountId, collection, scanClock(attempt), nextAvailable, r.value)
      ensures bitmaps == old(bitmaps)
    {
      var attempt := 0;
      while true
        invariant values == old(values) && bitmaps == old(bitmaps)
        invariant CommitRun(outcomes, |outcomes|, 0) == CommitRun(outcomes, |outcomes|, attempt)
        invariant attempt == 0 || attempt < |outcomes|
        decreases |outcomes| - attempt
      {
        var now := scanClock(attempt);
        var scan := ScanReservations(values, accountId, collection, ExpiredTimestamp(now));
        if scan.Err? {
          return Err(scan.error);
        }
        var reserved := scan.value.0;
        var expired := scan.value.1;
        var found: Option<u32> := None;
        if expired == [] {
          found := ScanBlocks(bitmaps, accountId, collection, reserved, nextAvailable);
        }
        forall i | 0 <= i < |expired| ensures expired[i] < U32_MAX {
          assert ExpiredAt(values, accountId, collection, ExpiredTimestamp(now), expired[i]);
        }
        var id := ChooseDocumentId(reserved, expired, found);
        assert DocumentIdChoice(values, bitmaps, accountId, collection, now, nextAvailable, id);
        match OutcomeAt(outcomes, attempt) {
          case Committed =>
            values := values[ReservationKey(accountId, collection, id) := EncodeU64(reserveClock(attempt))];
            return Ok(id);
          case Fatal =>
            return Err(FdbError);
          case Conflict =>
            if attempt + 1 < |outcomes| {
              attempt := attempt + 1;
            } else {
              return Err(FdbError);
            }
        }
      }
    }

    /**
     * `Store::assign_change_id`: read the account's counter, store the
     * next id and hand it out, retrying on conflicts while time remains.
     */
    method AssignChangeId(accountId: u32, outcomes: seq<CommitOutcome>) returns (r: Result<u64, Error>)
      modifies this
      ensures NextChangeId(old(values), accountId).Err? ==> r == NextChangeId(old(values), accountId)
      ensures r.Ok? <==> NextChangeId(old(values), accountId).Ok? && CommitRun(outcomes, |outcomes|, 0).Ok?
      ensures r.Ok? ==> r == NextChangeId(old(values), accountId)
      ensures NextChangeId(old(values), accountId).Ok? && r.Err? ==> r.error == FdbError
      ensures r.Ok? ==> values == RecordChangeId(old(values), accountId, r.value)
      ensures r.Err? ==> values == old(values)
      ensures bitmaps == old(bitmaps)
    {
      var counter := ChangeIdCounterKey(accountId);
      var attempt := 0;
      while true
        invariant values == old(values) && bitmaps == old(bitmaps)
        invariant CommitRun(outcomes, |outcomes|, 0) == CommitRun(outcomes, |outcomes|, attempt)
        invariant attempt == 0 || attempt < |outcomes|
        decreases |outcomes| - attempt
      {
        var id: u64 := 0;
        if counter in values {
          var stored := DecodeU64(values[counter]);
          if stored.None? {
            return Err(DeserializeError);
          }
          id := (stored.value + 1) % (U64_MAX + 1);
        }
        match OutcomeAt(outcomes, attempt) {
          case Committed =>
            values := values[counter := EncodeU64(id)];
            return Ok(id);
          case Fatal =>
            return Err(FdbError);
          case Conflict =>
            if attempt + 1 < |outcomes| {
              attempt := attempt + 1;
            } else {
              return Err(FdbError);
            }
        }
      }
    }
  }
}
