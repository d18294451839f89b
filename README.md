# Stalwart mail server: batch writes, id allocation, JMAP ACLs and blob framing

This project models three pieces of the Stalwart mail server's storage and
JMAP layers in Dafny and proves properties of them.

1. **FoundationDB batch writes and id allocators**
   (`crates/store/src/backend/foundationdb/write.rs`).
   - `Store::write` runs a batch of operations inside a transaction. It threads
     a running (account, collection, document) context, which starts at the
     maximum values on every attempt. It turns value, index, ACL and log
     operations into sets and clears of typed keys, and aborts the batch when
     an `AssertValue` finds its value absent or different.
   - On the first attempt only, `write` gathers bitmap changes per bitmap key
     into a set group and a clear group. Before committing, it ORs the set
     group into the stored bitmaps and XORs in the clear group. A failed
     commit is retried at most `MAX_COMMIT_ATTEMPTS` (10) times.
   - `assign_document_id` sorts the account's id reservations into expired and
     live ones. It picks an expired id at random, else asks each free-id
     bitmap block in turn, else takes the first unreserved id below 1024, and
     falls back to 1024. It then writes the current time under the chosen
     id's reservation key.
   - `assign_change_id` reads the account's change counter, increments it (0
     when absent) and writes it back.
   - The store is the class `FdbStore.Store`, whose fields `values` (key to
     bytes) and `bitmaps` (bitmap key to the set of ids whose bits are set)
     the three methods update.
2. **JMAP access control lists** (`crates/jmap/src/auth/acl.rs`).
   - `acl_set` replaces the ACL property of an object with a mapped grant list,
     or patches it in place: add or remove one right, replace an account's
     rights, or drop the account.
   - `map_acl_set` and `map_acl_patch` turn JMAP values into grants.
   - `effective_acl` is the union of the rights of the accounts a token
     belongs to, and `acl_get` shows an ACL only to members or administrators.
   - `refresh_acls` computes the principals whose rights changed.
   - `has_access_to_document`, `shared_documents` and
     `owned_or_shared_documents` decide access by intersecting stored rights
     with the rights asked for.
   The object under change is the class `JmapAclMethods.ObjectChanges`. The
   loops of the source are methods proved equal to recursive specification
   functions, about which the properties are proved as lemmas.
3. **Blob compression framing** (`crates/store/src/dispatch/blob.rs`).
   - `put_blob` stores LZ4 output followed by the marker byte 0xA1.
   - `get_blob` reads the whole blob, strips the marker, decompresses and
     applies the requested byte range afterwards. Without compression it
     passes the range to the backend.
   - `CompressionAlgo::parse_value` (with its error text naming the value and
     the configuration key), `marker` and `with_compression` are modelled.
     LZ4 itself and the backend read are function parameters.

Environment inputs are parameters:
- The answers of successive commit attempts are a sequence of
  `CommitOutcome`s.
- The clock is a parameter: for the allocator, the two readings each attempt
  makes (expiry threshold and stored timestamp) are functions of the attempt
  number.
- The directory lookup, the ACL and bitmap reads and `next_available_index`
  are functions.
- `DenseBitmap::block_num` is a function.
- The `AssertValue` comparison is a function.

Some behaviours are modelled as the code has them:
- The fallback id 1024 is handed out even when it is itself reserved.
  `FdbStore.ChosenIdNotReserved` proves that, provided `next_available_index`
  never offers a reserved id, 1024 is the only reserved id the allocator can
  return.
- `range.start` is ignored whenever `range.end` reaches the content length.
- An LZ4-compressed store treats any blob whose last byte is 0xA1 as
  compressed.
- A patch whose base value is not an ACL fails, but leaves that base value
  inserted in the changes.
- Change ids are the stored counter plus one, in u64 arithmetic: after
  u64::MAX the next id wraps to 0 (`FdbIds.NextAfterCounter`), so ids
  increase only while the counter is below u64::MAX (`FdbIds.ChangeIdsAfter`).
- `blob.rs` only compresses and frames. It does not deduplicate blobs or
  count references, so the model has neither.

## Model

| member | source | states |
|---|---|---|
| FdbBatch.NextContext | crates/store/src/backend/foundationdb/write.rs:50-72 | only AccountId, Collection and DocumentId operations change the running context |
| FdbBatch.ContextAfter | crates/store/src/backend/foundationdb/write.rs:49-72 | the context after a prefix of the batch, from u32::MAX, u8::MAX, u32::MAX; its partners AccountIsMostRecent … DocumentDefault state the most-recent rule |
| FdbBatch.AccountIsMostRecent | crates/store/src/backend/foundationdb/write.rs:58-62 | after a batch, the context account is the one set by the last AccountId operation |
| FdbBatch.AccountDefault | crates/store/src/backend/foundationdb/write.rs:50 | without an AccountId operation, the context account stays u32::MAX |
| FdbBatch.CollectionIsMostRecent | crates/store/src/backend/foundationdb/write.rs:63-67 | the context collection is the one set by the last Collection operation |
| FdbBatch.CollectionDefault | crates/store/src/backend/foundationdb/write.rs:51 | without a Collection operation, the context collection stays u8::MAX |
| FdbBatch.DocumentIsMostRecent | crates/store/src/backend/foundationdb/write.rs:68-72 | the context document is the one set by the last DocumentId operation |
| FdbBatch.DocumentDefault | crates/store/src/backend/foundationdb/write.rs:52 | without a DocumentId operation, the context document stays u32::MAX |
| FdbBatch.WriteOf | crates/store/src/backend/foundationdb/write.rs:73-159 | exactly value, index, ACL and log operations write to the transaction, and a log operation always sets |
| FdbBatch.Exec | crates/store/src/backend/foundationdb/write.rs:56-184 | the transaction view after one pass over the batch, or an abort; its partners LastWriteWins, UnwrittenKeyKept, OperationOutcome and AbortIffAssertFails state its meaning |
| FdbBatch.OperationOutcome | crates/store/src/backend/foundationdb/write.rs:73-159 | when no later operation writes the same key, a Value or Acl op leaves its value (nothing for None) under the key built from the context at that op; an Index op leaves an empty value or nothing; a Log op leaves its entry under its own collection, not the context's |
| FdbBatch.LastWriteWins | crates/store/src/backend/foundationdb/write.rs:56-184 | after a completed batch, every key holds what the last operation writing it left |
| FdbBatch.UnwrittenKeyKept | crates/store/src/backend/foundationdb/write.rs:56-184 | a key that no operation writes keeps its stored value |
| FdbBatch.AbortExtends | crates/store/src/backend/foundationdb/write.rs:173-181 | once a prefix of the batch has aborted, the whole batch aborts |
| FdbBatch.AbortIffAssertFails | crates/store/src/backend/foundationdb/write.rs:160-181 | the batch aborts exactly when some AssertValue finds its key absent or not matching in the view its predecessors built |
| FdbBatch.AddToGroup | crates/store/src/backend/foundationdb/write.rs:115-127 | adding an id to a group creates the key's entry if needed, adds the id to it and leaves other keys alone |
| FdbBatch.Groups | crates/store/src/backend/foundationdb/write.rs:103-128 | the set or clear group a batch gathers; its partner GroupsExact states which ids it holds under which key |
| FdbBatch.GroupsExact | crates/store/src/backend/foundationdb/write.rs:103-128 | an id is in a group's entry for a key exactly when some bitmap operation of that polarity recorded it under that key, including the context document's block number |
| FdbBatch.BitOr | crates/store/src/backend/foundationdb/write.rs:186-188 | OR-ing a set group in gives each key the union of its stored and grouped ids |
| FdbBatch.BitXor | crates/store/src/backend/foundationdb/write.rs:190-192 | XOR-ing a clear group in gives each key the symmetric difference of stored and grouped ids |
| FdbBatch.ApplyBitmaps | crates/store/src/backend/foundationdb/write.rs:186-192 | set groups OR-ed in first, then clear groups XOR-ed; its partner ClearingSetBits states the result when cleared bits were set |
| FdbBatch.ClearingSetBits | crates/store/src/backend/foundationdb/write.rs:239-247 | when every cleared bit was set, as the test-mode check demands, OR then XOR removes exactly the cleared ids |
| FdbBatch.CommitRun | crates/store/src/backend/foundationdb/write.rs:194-265 | the retry loop over commit outcomes; its partners CommitRunCommitted and WriteAttemptsBounded state where it stops |
| FdbBatch.WriteResult | crates/store/src/backend/foundationdb/write.rs:43-267 | the result of write: AssertValueFailed on an abort, else the commit run's outcome; Store.Write is proved to return it |
| FdbBatch.CommitRunCommitted | crates/store/src/backend/foundationdb/write.rs:257-263 | a successful commit run ends at a Committed attempt, after only retried conflicts, within the attempt limit |
| FdbBatch.WriteAttemptsBounded | crates/store/src/backend/foundationdb/write.rs:258-263 | a successful write commits after at most MAX_COMMIT_ATTEMPTS (10) retries |
| FdbStore.OrInto | crates/store/src/backend/foundationdb/write.rs:186-188 | the loop over the set group computes BitOr |
| FdbStore.XorInto | crates/store/src/backend/foundationdb/write.rs:190-192 | the loop over the clear group computes BitXor |
| FdbStore.RunOps | crates/store/src/backend/foundationdb/write.rs:56-184 | one pass over the batch aborts exactly when Exec does; otherwise it yields Exec's view, and fills the bitmap groups only when asked to (first attempt) |
| FdbStore.Store.Write | crates/store/src/backend/foundationdb/write.rs:43-267 | the result is the batch's outcome; on success the values are the executed batch and the bitmaps have the groups applied once, however many retries ran; on failure nothing changes |
| FdbIds.ExpiredTimestamp | crates/store/src/backend/foundationdb/write.rs:310 | the expiry threshold is now minus 3600 seconds, wrapping modulo 2^64 when now is below 3600 |
| FdbIds.ReservationIds | crates/store/src/backend/foundationdb/write.rs:280-307 | the reservation scan covers exactly the reservation keys of the account and collection with ids below u32::MAX |
| FdbIds.ScanReservations | crates/store/src/backend/foundationdb/write.rs:314-329 | fails exactly when a stored timestamp does not decode; otherwise the ids at or below the threshold are the expired ones and all others are reserved |
| FdbIds.ScanBlocks | crates/store/src/backend/foundationdb/write.rs:343-375 | the bitmap scan yields what the first block offering an id offers, or nothing when no block does |
| FdbIds.ChooseDocumentId | crates/store/src/backend/foundationdb/write.rs:332-388 | an expired id when there is one; else the bitmap's id; else the least id below 1024 that is not reserved, or 1024 |
| FdbStore.ChosenIdNotReserved | crates/store/src/backend/foundationdb/write.rs:377-388 | when the bitmap never offers a reserved id, the chosen id is unreserved unless it is the 1024 fallback |
| FdbStore.Store.AssignDocumentId | crates/store/src/backend/foundationdb/write.rs:269-417 | fails with a decoding error or a commit error exactly when the scan or the commit fails; on success the id is chosen by the order of preference against the expiry threshold of the committing attempt, and its reservation holds that attempt's second clock reading |
| FdbIds.NextChangeId | crates/store/src/backend/foundationdb/write.rs:429-433 | 0 when the counter is absent; an error exactly when the stored counter is not a u64 |
| FdbIds.RecordChangeId | crates/store/src/backend/foundationdb/write.rs:434 | the store after the counter is written back; its partners ChangeIdsIncrease and ChangeIdsPerAccount state its effect on the next id |
| FdbIds.ChangeIds | crates/store/src/backend/foundationdb/write.rs:419-449 | the ids n successive calls hand out; its partners ChangeIdsAfter and ChangeIdsFromZero state them |
| FdbIds.NextAfterCounter | crates/store/src/backend/foundationdb/write.rs:429-434 | after a stored counter c, the next id is c + 1, wrapping to 0 after u64::MAX |
| FdbIds.ChangeIdsIncrease | crates/store/src/backend/foundationdb/write.rs:429-434 | storing the id handed out makes the next id one larger |
| FdbIds.ChangeIdsPerAccount | crates/store/src/backend/foundationdb/write.rs:421-424 | recording a change id of one account does not affect another account's counter |
| FdbIds.ChangeIdsAfter | crates/store/src/backend/foundationdb/write.rs:419-449 | successive calls after a counter c hand out c+1, c+2, … |
| FdbIds.ChangeIdsFromZero | crates/store/src/backend/foundationdb/write.rs:419-449 | successive calls on a fresh account hand out 0, 1, 2, … |
| FdbStore.Store.AssignChangeId | crates/store/src/backend/foundationdb/write.rs:419-449 | returns the next change id and stores it; a stored counter that does not decode gives the decoding error, otherwise a failed commit gives the commit error; on any error the store is unchanged |
| FdbKeys.DecodeEncodeU64 | crates/store/src/backend/foundationdb/write.rs:400 | decoding a serialised u64 gives it back |
| FdbKeys.EncodeDecodeU64 | crates/store/src/backend/foundationdb/write.rs:321 | every 8-byte value decodes, and re-encodes to itself |
| FdbKeys.EncodeU64 | crates/store/src/backend/foundationdb/write.rs:400 | the serialised u64 is 8 bytes (big-endian by assumption); its partners are the two round-trip lemmas |
| FdbKeys.DecodeU64 | crates/store/src/backend/foundationdb/write.rs:321 | a byte string decodes exactly when it is 8 bytes long; its partners are the two round-trip lemmas |
| JmapAcl.GrantsFromBits | crates/jmap/src/auth/acl.rs:436 | the rights of a u64 are exactly its set bits |
| JmapAcl.PairGrant | crates/jmap/src/auth/acl.rs:425-454 | a (name, rights) pair maps to a grant exactly when it is a text and an unsigned int and the name is found; otherwise invalid value, unknown account or server failure |
| JmapAcl.MapAclSetSpec | crates/jmap/src/auth/acl.rs:422-458 | map_acl_set over the complete pairs; its partners MapAclSetPairs and MapAclSetFirstError state its result and its error |
| JmapAcl.MapAclSetPairs | crates/jmap/src/auth/acl.rs:422-458 | map_acl_set succeeds exactly when every complete pair maps, and then yields one grant per pair in order, ignoring an odd trailing element |
| JmapAcl.MapAclSetFirstError | crates/jmap/src/auth/acl.rs:424-455 | a failure reports the error of the first pair that fails |
| JmapAcl.MapAclPatch | crates/jmap/src/auth/acl.rs:460-493 | the first two elements map as a pair; a third element gives a flag that is true exactly when it is the boolean true; no third element gives no flag |
| JmapAcl.FindAccount | crates/jmap/src/auth/acl.rs:289-291 | the index of the first entry for an account, or none when there is no entry |
| JmapAcl.Retain | crates/jmap/src/auth/acl.rs:299 | retain keeps exactly the entries of other accounts |
| JmapAcl.PatchAcl | crates/jmap/src/auth/acl.rs:287-317 | the grant list after a patch; its partners PatchOthersUntouched, PatchReplaces, PatchRemovesAccount, PatchAddsGrant, PatchRemovesGrant and PatchKeepsAccountsUnique state every case |
| JmapAcl.PatchOthersUntouched | crates/jmap/src/auth/acl.rs:287-317 | a patch leaves the entries of every other account unchanged and in order |
| JmapAcl.PatchReplaces | crates/jmap/src/auth/acl.rs:306-314 | a patch without flag and with rights gives the account exactly those rights |
| JmapAcl.PatchRemovesAccount | crates/jmap/src/auth/acl.rs:315-317 | a patch without flag and without rights removes every entry of the account |
| JmapAcl.PatchAddsGrant | crates/jmap/src/auth/acl.rs:287-304 | flag true adds one right to the account's entry, or appends the patch when there is none |
| JmapAcl.PatchRemovesGrant | crates/jmap/src/auth/acl.rs:287-302 | flag false removes one right and drops the account when no rights remain; without an entry nothing changes |
| JmapAcl.PatchKeepsAccountsUnique | crates/jmap/src/auth/acl.rs:287-317 | a patch keeps a list that has at most one entry per account in that form |
| JmapAcl.RetainKeepsAccountsUnique | crates/jmap/src/auth/acl.rs:299 | retain keeps a list that has at most one entry per account in that form |
| JmapAcl.EffectiveGrants | crates/jmap/src/auth/acl.rs:500-513 | the union of the member accounts' rights; its partner EffectiveGrantsExact states it pointwise |
| JmapAcl.EffectiveGrantsExact | crates/jmap/src/auth/acl.rs:500-513 | a right is effective exactly when some entry of an account the token belongs to grants it |
| JmapAcl.AclVisible | crates/jmap/src/auth/acl.rs:334-338 | a member of the account always sees the ACL |
| JmapAcl.AclVisibleIffAdminister | crates/jmap/src/auth/acl.rs:334-338 | the ACL is visible exactly to members of the account and to tokens with the Administer right through it |
| JmapAcl.Invalidates | crates/jmap/src/auth/acl.rs:376-382 | an entry is invalidated when the other list has no entry for its account or its first one differs; ShouldInvalidate is proved to compute it |
| JmapAcl.FlaggedFrom | crates/jmap/src/auth/acl.rs:375-390 | the accounts one pass flags; its partner FlaggedFromExact states them |
| JmapAcl.ChangedPrincipals | crates/jmap/src/auth/acl.rs:369-416 | both passes against a current list, every new account without one; its partners ChangedIffFirstGrantsDiffer and UnchangedAclReportsNobody state its meaning |
| JmapAcl.FlaggedFromExact | crates/jmap/src/auth/acl.rs:375-407 | one flagging pass flags an account exactly when some entry for it has no counterpart or differs from the counterpart's first entry |
| JmapAcl.FirstGrantsDifferChanged | crates/jmap/src/auth/acl.rs:369-407 | an account whose first entries differ between the old and new lists is reported as changed |
| JmapAcl.ChangedIffFirstGrantsDiffer | crates/jmap/src/auth/acl.rs:369-407 | for lists with one entry per account, an account is reported exactly when it is in only one list or its rights differ |
| JmapAcl.UnchangedAclReportsNobody | crates/jmap/src/auth/acl.rs:369-407 | an unchanged list reports no principal |
| JmapAclMethods.GrantAccounts | crates/jmap/src/auth/acl.rs:223-226 | the accounts tried are exactly those the token belongs to, the primary account first |
| JmapAclMethods.MapAclSet | crates/jmap/src/auth/acl.rs:422-458 | the loop computes map_acl_set's result |
| JmapAclMethods.EffectiveAcl | crates/jmap/src/auth/acl.rs:500-513 | the loop computes the effective rights, empty when the object has no ACL property |
| JmapAclMethods.ShouldInvalidate | crates/jmap/src/auth/acl.rs:376-382 | the inner loop decides invalidation from the first entry for the same account |
| JmapAclMethods.FlagChanged | crates/jmap/src/auth/acl.rs:375-407 | the outer loop adds exactly the flagged accounts |
| JmapAclMethods.RefreshAcls | crates/jmap/src/auth/acl.rs:364-420 | reports changed principals exactly when the changes hold an ACL: every new account when there is no current ACL, otherwise the flagged ones in both directions |
| JmapAclMethods.AccessGrantedExact | crates/jmap/src/auth/acl.rs:223-253 | access is granted exactly when some account, every earlier one read without error and without granting, has stored rights meeting the rights asked for |
| JmapAclMethods.AccessRefusedExact | crates/jmap/src/auth/acl.rs:223-253 | access is refused without error exactly when every account reads without error and grants none of the rights asked for |
| JmapAclMethods.AccessWithoutErrors | crates/jmap/src/auth/acl.rs:213-254 | when no read fails, access is granted exactly when some account the token belongs to holds a matching right |
| JmapAclMethods.AccessFrom | crates/jmap/src/auth/acl.rs:223-253 | the access decision over a list of accounts, stopping at a grant or an error; its partners AccessGrantedExact and AccessRefusedExact state both outcomes |
| JmapAclMethods.HasAccessToDocument | crates/jmap/src/auth/acl.rs:213-254 | the loop over the token's accounts computes the access decision, storage errors included |
| JmapAclMethods.ItemsMatching | crates/jmap/src/auth/acl.rs:119-137 | the documents of items whose rights meet the rights asked for |
| JmapAclMethods.SharedFromExact | crates/jmap/src/auth/acl.rs:105-141 | shared documents fail exactly when some query fails; otherwise a document is shared exactly when an item from one of the token's accounts names it with a matching right |
| JmapAclMethods.SharedFrom | crates/jmap/src/auth/acl.rs:115-140 | the shared documents over a list of accounts; its partner SharedFromExact states them and the error case |
| JmapAclMethods.AddMatching | crates/jmap/src/auth/acl.rs:119-137 | the inner loop adds exactly the matching items' documents |
| JmapAclMethods.SharedDocuments | crates/jmap/src/auth/acl.rs:105-141 | the loop over the token's accounts computes the shared documents |
| JmapAclMethods.OwnedOrSharedDocuments | crates/jmap/src/auth/acl.rs:174-192 | a member gets all document ids; anyone else gets their intersection with the shared ones; no ids give none; errors propagate |
| JmapAclMethods.PatchBase | crates/jmap/src/auth/acl.rs:270-279 | the value a patch starts from: the ACL in the changes, else the current object's, else an empty list; AclSet's ensures use it |
| JmapAclMethods.ObjectChanges.AclSet | crates/jmap/src/auth/acl.rs:256-326 | a list value replaces the ACL with map_acl_set's result; other values are an invalid property; a patch fails on mapping errors or a non-ACL base, and otherwise applies to the ACL in the changes, else the current object's, else an empty one |
| BlobStore.Marker | crates/store/src/dispatch/blob.rs:153-162 | the LZ4 marker is 0xA1 and the marker of no compression is 0 |
| BlobStore.WithCompression | crates/store/src/dispatch/blob.rs:145-150 | keeps the backend and sets only the compression |
| BlobStore.ParseCompression | crates/store/src/dispatch/blob.rs:165-181 | "lz4" parses to LZ4; "none", "false", "disable" and "disabled" to no compression; everything else is an error naming the value and the key |
| BlobStore.ReadRange | crates/store/src/dispatch/blob.rs:36-39 | without compression the backend reads the caller's range, with LZ4 the whole blob |
| BlobStore.StoredForm | crates/store/src/dispatch/blob.rs:96-104 | with LZ4 the stored bytes are the compressed data and one marker byte; without compression the data itself |
| BlobStore.Slice | crates/store/src/dispatch/blob.rs:84-93 | the whole content when range.end reaches its length, start..end otherwise, empty when start > end |
| BlobStore.Unframe | crates/store/src/dispatch/blob.rs:60-78 | data without the marker is returned as read |
| BlobStore.GetBlob | crates/store/src/dispatch/blob.rs:31-94 | get_blob; its partners UncompressedPassThrough, Lz4RoundTrip, Lz4Unmarked and Lz4DecompressFailure state every path |
| BlobStore.UncompressedPassThrough | crates/store/src/dispatch/blob.rs:36-81 | without compression get_blob returns the backend's answer for the caller's range unchanged |
| BlobStore.Lz4RoundTrip | crates/store/src/dispatch/blob.rs:59-101 | reading back an LZ4 put gives the range of the original data, and all of it when range.end reaches its length |
| BlobStore.Lz4Unmarked | crates/store/src/dispatch/blob.rs:59-93 | with LZ4 an absent blob is absent, a read error propagates and unmarked data is sliced as read |
| BlobStore.Lz4DecompressFailure | crates/store/src/dispatch/blob.rs:60-74 | a marked blob that does not decompress gives an internal error |

## Left out

- FoundationDB transactions:
  - The transaction API itself, `on_error` back-off and conflict-range reads are not modelled. Each commit attempt is one entry of the outcome sequence: committed, retryable conflict, or fatal.
  - The wall-clock limit MAX_COMMIT_TIME is not modelled. It is replaced by the length of that sequence.
  - No other writer runs between attempts. A retried batch therefore sees the same store.
- Errors from `create_trx`, and a failed read inside `AssertValue`:
  - Errors from `create_trx` are not modelled.
  - A read failure inside `AssertValue` counts as an absent value, as the code's `unwrap_or_default` does.
- Key layout: the `.serialize()` byte layout of keys and the ordering of keys in range reads are not modelled. Keys are datatype values. The bitmap scan reads blocks in ascending block order.
- FdbIds.ScanReservations: visits the reservations in an arbitrary order, not the key order of the range read, so the order of the expired list is not the source's. Only membership is stated; the random pick among expired ids does not depend on their order.
- FdbIds.BITS_PER_BLOCK: the constant is defined in the bitmap module, which is not part of this model; its value 1024 is an assumption, matching the fallback id 1024. The first-free-id scan depends on it.
- FdbStore.Store.AssignDocumentId: the clock readings of an attempt are parameters, so the model does not capture how real time relates to attempts; it does keep the two readings of each attempt separate.
- Block helpers: `DenseBitmap::block_num` and `next_available_index` are not shown, so they are function parameters.
- u64 encoding: u64 values are stored as 8 big-endian bytes, which is an assumption. The serialiser is not shown, and only the length check and the round trip matter to the model.
- Random pick: `rand::thread_rng` is replaced by a nondeterministic choice among the expired ids.
- Test-mode code: the `BITMAPS` global, its assertions and `destroy` are test harness code. Their requirement on cleared bits is the precondition of `FdbBatch.ClearingSetBits`.
- Test constants: the test-mode values of MAX_COMMIT_ATTEMPTS (1000) and ID_ASSIGNMENT_EXPIRY are left out. The model uses the release values 10 and 3600.
- Async code and tracing: futures and tracing output are not modelled.
- Directory and storage calls are parameters:
  - the directory `query`;
  - `acl_query`;
  - `get_value`;
  - `get_document_ids`.
- `increment_token_revision`: this call is left out. `JmapAclMethods.RefreshAcls` returns the set of changed principals it would receive.
- The `acl_get` result object: building it from principal names is directory I/O, so only the visibility guard is modelled.
- `shared_messages` and `owned_or_shared_messages` are not part of this model. They join shared mailboxes with the mailbox tag index, which lies outside the ACL rules modelled here.
- `Acl` rights: the enum is not shown, so a right is its bit position 0..63 in the u64 permission word. The position of `Administer` (`JmapAcl.ADMINISTER`) is a placeholder.
- Membership: `AccessToken::is_member` is not shown and is taken to mean "primary id or one of member_of".
- Error labels: `SetError` carries its kind and description. The `with_property` label, always the ACL property, is left out.
- Blob store:
  - The per-backend dispatch in `blob.rs` is one backend-read parameter, and `put_blob`'s backend write is `BlobStore.StoredForm`.
  - `delete_blob` is left out.
  - The LZ4 library internals are left out. Compression and decompression are function parameters, and the round trip assumes decompression undoes compression.
- FdbStore.Store.Write: the result is stated relative to the store's state at the call, which holds only because no other writer is modelled.
- JmapAcl.MapAclPatch: requires at least two elements, because the source indexes `[0]` and `[1]` and panics on a shorter patch. JmapAclMethods.ObjectChanges.AclSet carries the same requires for a patch, for the same reason.
- JmapAclMethods.ObjectChanges.AclSet: for an add or remove patch, the ensures names some right of the patch rather than the one `Bitmap::pop` takes. The ordering `pop` uses is not shown.
- FdbIds.ChangeIdsAfter: requires the counter to stay below u64::MAX for the n calls. The wrap itself is stated by `FdbIds.NextAfterCounter`.
