/**
 * The meaning of a write batch of the FoundationDB backend
 * (`Store::write`): the running (account, collection, document) context,
 * the key-value writes each operation makes inside the transaction, the
 * abort rule of `AssertValue`, the grouping of bitmap changes and the
 * bounded commit retry.
 */
module FdbBatch {
  import opened Wrappers
  import opened Ints
  import opened FdbKeys

  /** One operation of a batch. */
  datatype Operation =
    | AccountId(accountId: u32)
    | Collection(collection: u8)
    | DocumentId(documentId: u32)
    | Value(family: u8, field: u8, value: Option<Bytes>)
    | Index(field: u8, key: Bytes, isSet: bool)
    | Bitmap(family: u8, field: u8, key: Bytes, isSet: bool)
    | Acl(grantAccountId: u32, value: Option<Bytes>)
    | Log(collection: u8, changeId: u64, entry: Bytes)
    | AssertValue(family: u8, field: u8, assertValue: Bytes)

  datatype Error =
      /** An `AssertValue` operation found its value absent or different. */
    | AssertValueFailed
      /** The commit failed and was not (or no longer) retried. */
    | FdbError
      /** A stored u64 could not be decoded. */
    | DeserializeError

  /** What the environment answers to one commit attempt. */
  datatype CommitOutcome =
    | Committed
      /** A retryable conflict: `on_error` backs off and the loop runs again. */
    | Conflict
      /** A failure `on_error` does not retry. */
    | Fatal

  const MAX_COMMIT_ATTEMPTS: nat := 10

  datatype Context = Context(accountId: u32, collection: u8, documentId: u32)

  /** The context every attempt starts from: all three components at their maximum. */
  const INITIAL_CONTEXT: Context := Context(U32_MAX, U8_MAX, U32_MAX)

  type KV = map<Key, Bytes>
  type Bitmaps = map<BitmapKey, set<u32>>

  function Last<T>(s: seq<T>): T
    requires s != []
  {
    s[|s| - 1]
  }

  function Init<T>(s: seq<T>): seq<T>
    requires s != []
  {
    s[..|s| - 1]
  }

  /** The context after `op`: only the three context operations change it. */
  function NextContext(ctx: Context, op: Operation): (next: Context)
    ensures !(op.AccountId? || op.Collection? || op.DocumentId?) ==> next == ctx
  {
    match op
    case AccountId(a) => ctx.(accountId := a)
    case Collection(c) => ctx.(collection := c)
    case DocumentId(d) => ctx.(documentId := d)
    case _ => ctx
  }

  /** The context in force after the operations `ops`, starting from INITIAL_CONTEXT. */
  function ContextAfter(ops: seq<Operation>): Context
  {
    if ops == [] then INITIAL_CONTEXT else NextContext(ContextAfter(Init(ops)), Last(ops))
  }

  /** A single write to the transaction. */
  datatype Write = Set(key: Key, value: Bytes) | Clear(key: Key)

  /**
   * The write that `op` makes to the transaction under context `ctx`, if
   * any. Context, bitmap and assert operations write nothing here.
   */
  function WriteOf(ctx: Context, op: Operation): (w: Option<Write>)
    ensures w.Some? <==> op.Value? || op.Index? || op.Acl? || op.Log?
    ensures op.Log? ==> w.Some? && w.value.Set?
  {
    match op
    case Value(family, field, value) =>
      var key := ValueKey(ctx.accountId, ctx.collection, ctx.documentId, family, field);
      Some(if value.Some? then Set(key, value.value) else Clear(key))
    case Index(field, key, isSet) =>
      var k := IndexKey(ctx.accountId, ctx.collection, ctx.documentId, field, key);
      Some(if isSet then Set(k, []) else Clear(k))
    case Acl(grant, value) =>
      var key := AclKey(grant, ctx.accountId, ctx.collection, ctx.documentId);
      Some(if value.Some? then Set(key, value.value) else Clear(key))
    case Log(collection, changeId, value) =>
      Some(Set(LogKey(ctx.accountId, collection, changeId), value))
    case _ => None
  }

  function ApplyWrite(kv: KV, w: Write): KV
  {
    match w
    case Set(k, v) => kv[k := v]
    case Clear(k) => kv - {k}
  }

  /** The value a key holds in a map, `None` when absent. */
  function Lookup(kv: KV, k: Key): Option<Bytes>
  {
    if k in kv then Some(kv[k]) else None
  }

  /** The value a write leaves behind under its key. */
  function WrittenValue(w: Write): Option<Bytes>
  {
    match w
    case Set(_, v) => Some(v)
    case Clear(_) => None
  }

  /**
   * `op` is an `AssertValue` whose value key is absent from the
   * transaction's view `kv` or whose value does not match.
   */
  predicate AssertFails(ctx: Context, kv: KV, op: Operation, matches: (Bytes, Bytes) -> bool)
  {
    op.AssertValue? &&
    var key := ValueKey(ctx.accountId, ctx.collection, ctx.documentId, op.family, op.field);
    key !in kv || !matches(op.assertValue, kv[key])
  }

  /**
   * The view of the transaction after running `ops` against the store `kv`,
   * or `None` when an assert aborted the batch.
   */
  function Exec(ops: seq<Operation>, kv: KV, matches: (Bytes, Bytes) -> bool): Option<KV>
  {
    if ops == [] then Some(kv)
    else
      match Exec(Init(ops), kv, matches)
      case None => None
      case Some(view) =>
        var ctx := ContextAfter(Init(ops));
        if AssertFails(ctx, view, Last(ops), matches) then None
        else
          match WriteOf(ctx, Last(ops))
          case None => Some(view)
          case Some(w) => Some(ApplyWrite(view, w))
  }

  /** The bitmap key of a bitmap operation under context `ctx`. */
  function BitmapKeyOf(ctx: Context, op: Operation, blockNum: u32 -> u32): BitmapKey
    requires op.Bitmap?
  {
    BitmapKey(ctx.accountId, ctx.collection, op.family, op.field, blockNum(ctx.documentId), op.key)
  }

  /** Set bit `id` in the group's bitmap for `k`, starting from an empty bitmap when `k` has none yet. */
  function AddToGroup(g: Bitmaps, k: BitmapKey, id: u32): (g': Bitmaps)
    ensures g'.Keys == g.Keys + {k}
    ensures g'[k] == (if k in g then g[k] else {}) + {id}
    ensures forall k' :: k' in g && k' != k ==> g'[k'] == g[k']
  {
    g[k := (if k in g then g[k] else {}) + {id}]
  }

  /** The set group (`isSet`) or clear group (`!isSet`) that `ops` gather. */
  function Groups(ops: seq<Operation>, isSet: bool, blockNum: u32 -> u32): Bitmaps
  {
    if ops == [] then map[]
    else
      var g := Groups(Init(ops), isSet, blockNum);
      var op := Last(ops);
      if op.Bitmap? && op.isSet == isSet then
        var ctx := ContextAfter(Init(ops));
        AddToGroup(g, BitmapKeyOf(ctx, op, blockNum), ctx.documentId)
      else g
  }

  function Get(bm: Bitmaps, k: BitmapKey): set<u32>
  {
    if k in bm then bm[k] else {}
  }

  /** The atomic `BitOr` of every group entry onto the stored bitmaps. */
  function BitOr(bm: Bitmaps, g: Bitmaps): (r: Bitmaps)
    ensures r.Keys == bm.Keys + g.Keys
    ensures forall k :: k in r ==> r[k] == Get(bm, k) + Get(g, k)
  {
    map k | k in bm.Keys + g.Keys :: Get(bm, k) + Get(g, k)
  }

  function SymmetricDifference(a: set<u32>, b: set<u32>): set<u32>
  {
    (a - b) + (b - a)
  }

  /** The atomic `BitXor` of every group entry onto the stored bitmaps. */
  function BitXor(bm: Bitmaps, g: Bitmaps): (r: Bitmaps)
    ensures r.Keys == bm.Keys + g.Keys
    ensures forall k :: k in r ==> r[k] == SymmetricDifference(Get(bm, k), Get(g, k))
  {
    map k | k in bm.Keys + g.Keys :: SymmetricDifference(Get(bm, k), Get(g, k))
  }

  /** The stored bitmaps after a commit: set groups OR-ed first, then clear groups XOR-ed. */
  function ApplyBitmaps(bm: Bitmaps, setGroups: Bitmaps, clearGroups: Bitmaps): Bitmaps
  {
    BitXor(BitOr(bm, setGroups), clearGroups)
  }

  /** The commit outcome of attempt `n`; past the supplied outcomes the clock has run out. */
  function OutcomeAt(outcomes: seq<CommitOutcome>, n: nat): CommitOutcome
  {
    if n < |outcomes| then outcomes[n] else Conflict
  }

  /**
   * The retry loop from attempt `n` on: a conflict is retried while the
   * attempt count is below `limit` and time remains (another outcome is
   * supplied). `Ok(m)` names the attempt that committed.
   */
  function CommitRun(outcomes: seq<CommitOutcome>, limit: nat, n: nat): Result<nat, Error>
    decreases |outcomes| - n
  {
    match OutcomeAt(outcomes, n)
    case Committed => Ok(n)
    case Fatal => Err(FdbError)
    case Conflict =>
      if n < limit && n + 1 < |outcomes| then CommitRun(outcomes, limit, n + 1) else Err(FdbError)
  }

  /** The result `Store::write` returns. */
  function WriteResult(kv: KV, batch: seq<Operation>, matches: (Bytes, Bytes) -> bool,
                       outcomes: seq<CommitOutcome>): Result<(), Error>
  {
    if Exec(batch, kv, matches).None? then Err(AssertValueFailed)
    else
      match CommitRun(outcomes, MAX_COMMIT_ATTEMPTS, 0)
      case Ok(_) => Ok(())
      case Err(e) => Err(e)
  }

  // ---------------------------------------------------------------------
  // The running context

  /** Operation `i` is the last operation of `ops` that sets the account id. */
  ghost predicate LastAccountOp(ops: seq<Operation>, i: int)
  {
    0 <= i < |ops| && ops[i].AccountId? && forall j :: i < j < |ops| ==> !ops[j].AccountId?
  }

  ghost predicate LastCollectionOp(ops: seq<Operation>, i: int)
  {
    0 <= i < |ops| && ops[i].Collection? && forall j :: i < j < |ops| ==> !ops[j].Collection?
  }

  ghost predicate LastDocumentOp(ops: seq<Operation>, i: int)
  {
    0 <= i < |ops| && ops[i].DocumentId? && forall j :: i < j < |ops| ==> !ops[j].DocumentId?
  }

  /** The account id in force is the one the most recent `AccountId` operation set. */
  lemma {:induction false} AccountIsMostRecent(ops: seq<Operation>, i: int)
    requires LastAccountOp(ops, i)
    ensures ContextAfter(ops).accountId == ops[i].accountId
  {
    var p := Init(ops);
    if i < |p| {
      assert p[i] == ops[i];
      assert LastAccountOp(p, i) by {
        forall j | i < j < |p| ensures !p[j].AccountId? {
          assert p[j] == ops[j];
        }
      }
      AccountIsMostRecent(p, i);
    }
  }

  /** The account id is U32_MAX while no `AccountId` operation has run. */
  lemma {:induction false} AccountDefault(ops: seq<Operation>)
    requires forall i :: 0 <= i < |ops| ==> !ops[i].AccountId?
    ensures ContextAfter(ops).accountId == U32_MAX
  {
    if ops != [] {
      var p := Init(ops);
      assert forall j :: 0 <= j < |p| ==> p[j] == ops[j];
      AccountDefault(p);
    }
  }

  /** The collection in force is the one the most recent `Collection` operation set. */
  lemma {:induction false} CollectionIsMostRecent(ops: seq<Operation>, i: int)
    requires LastCollectionOp(ops, i)
    ensures ContextAfter(ops).collection == ops[i].collection
  {
    var p := Init(ops);
    if i < |p| {
      assert p[i] == ops[i];
      assert LastCollectionOp(p, i) by {
        forall j | i < j < |p| ensures !p[j].Collection? {
          assert p[j] == ops[j];
        }
      }
      CollectionIsMostRecent(p, i);
    }
  }

  /** The collection is U8_MAX while no `Collection` operation has run. */
  lemma {:induction false} CollectionDefault(ops: seq<Operation>)
    requires forall i :: 0 <= i < |ops| ==> !ops[i].Collection?
    ensures ContextAfter(ops).collection == U8_MAX
  {
    if ops != [] {
      var p := Init(ops);
      assert forall j :: 0 <= j < |p| ==> p[j] == ops[j];
      CollectionDefault(p);
    }
  }

  /** The document id in force is the one the most recent `DocumentId` operation set. */
  lemma {:induction false} DocumentIsMostRecent(ops: seq<Operation>, i: int)
    requires LastDocumentOp(ops, i)
    ensures ContextAfter(ops).documentId == ops[i].documentId
  {
    var p := Init(ops);
    if i < |p| {
      assert p[i] == ops[i];
      assert LastDocumentOp(p, i) by {
        forall j | i < j < |p| ensures !p[j].DocumentId? {
          assert p[j] == ops[j];
        }
      }
      DocumentIsMostRecent(p, i);
    }
  }

  /** The document id is U32_MAX while no `DocumentId` operation has run. */
  lemma {:induction false} DocumentDefault(ops: seq<Operation>)
    requires forall i :: 0 <= i < |ops| ==> !ops[i].DocumentId?
    ensures ContextAfter(ops).documentId == U32_MAX
  {
    if ops != [] {
      var p := Init(ops);
      assert forall j :: 0 <= j < |p| ==> p[j] == ops[j];
      DocumentDefault(p);
    }
  }

  // ---------------------------------------------------------------------
  // Transaction writes

  /** The write of operation `i`, under the context its predecessors built. */
  function WriteAt(ops: seq<Operation>, i: nat): Option<Write>
    requires i < |ops|
  {
    WriteOf(ContextAfter(ops[..i]), ops[i])
  }

  ghost predicate WritesKey(ops: seq<Operation>, i: int, k: Key)
  {
    0 <= i < |ops| && WriteAt(ops, i).Some? && WriteAt(ops, i).value.key == k
  }

  ghost predicate LastWriteTo(ops: seq<Operation>, i: int, k: Key)
  {
    WritesKey(ops, i, k) && forall j :: i < j < |ops| ==> !WritesKey(ops, j, k)
  }

  lemma PrefixOfInit(ops: seq<Operation>, j: nat)
    requires ops != [] && j < |ops|
    ensures Init(ops)[..j] == ops[..j]
  {
  }

  /** The writes of a batch's prefix are the ones the batch makes there. */
  lemma WriteAtInit(ops: seq<Operation>, j: nat)
    requires ops != [] && j < |ops| - 1
    ensures WriteAt(Init(ops), j) == WriteAt(ops, j)
  {
    PrefixOfInit(ops, j);
  }

  /**
   * When a batch runs to the end, a key holds what the last operation
   * writing it left there: the value it set, or nothing when it cleared.
   */
  lemma {:induction false} LastWriteWins(ops: seq<Operation>, kv: KV, matches: (Bytes, Bytes) -> bool, k: Key, i: int)
    requires Exec(ops, kv, matches).Some?
    requires LastWriteTo(ops, i, k)
    ensures Lookup(Exec(ops, kv, matches).value, k) == WrittenValue(WriteAt(ops, i).value)
  {
    var p := Init(ops);
    var n := |p|;
    assert ops[..n] == p;
    if i < n {
      WriteAtInit(ops, i);
      assert LastWriteTo(p, i, k) by {
        forall j | i < j < n ensures !WritesKey(p, j, k) {
          assert !WritesKey(ops, j, k);
          WriteAtInit(ops, j);
        }
      }
      LastWriteWins(p, kv, matches, k, i);
      assert !WritesKey(ops, n, k);
    }
  }

  /** A key no operation of the batch writes keeps its stored value. */
  lemma {:induction false} UnwrittenKeyKept(ops: seq<Operation>, kv: KV, matches: (Bytes, Bytes) -> bool, k: Key)
    requires Exec(ops, kv, matches).Some?
    requires forall i :: 0 <= i < |ops| ==> !WritesKey(ops, i, k)
    ensures Lookup(Exec(ops, kv, matches).value, k) == Lookup(kv, k)
  {
    if ops != [] {
      var p := Init(ops);
      var n := |p|;
      assert ops[..n] == p;
      forall j | 0 <= j < n ensures !WritesKey(p, j, k) {
        assert !WritesKey(ops, j, k);
        WriteAtInit(ops, j);
      }
      UnwrittenKeyKept(p, kv, matches, k);
      assert !WritesKey(ops, n, k);
    }
  }

  /**
   * What each kind of operation leaves in the store when no later
   * operation writes the same key: a value or ACL operation its value (or
   * nothing for `None`), an index operation an empty value (or nothing), a
   * log operation its entry. The key is built from the context in force at
   * the operation, except that a log key takes the operation's own
   * collection.
   */
  lemma OperationOutcome(ops: seq<Operation>, kv: KV, matches: (Bytes, Bytes) -> bool, i: int)
    requires Exec(ops, kv, matches).Some?
    requires 0 <= i < |ops| && WriteAt(ops, i).Some?
    requires forall j :: i < j < |ops| ==> !WritesKey(ops, j, WriteAt(ops, i).value.key)
    ensures var ctx := ContextAfter(ops[..i]);
            var final := Exec(ops, kv, matches).value;
            match ops[i]
            case Value(family, field, value) =>
              Lookup(final, ValueKey(ctx.accountId, ctx.collection, ctx.documentId, family, field)) == value
            case Index(field, key, isSet) =>
              Lookup(final, IndexKey(ctx.accountId, ctx.collection, ctx.documentId, field, key)) ==
                if isSet then Some([]) else None
            case Acl(grant, value) =>
              Lookup(final, AclKey(grant, ctx.accountId, ctx.collection, ctx.documentId)) == value
            case Log(collection, changeId, entry) =>
              Lookup(final, LogKey(ctx.accountId, collection, changeId)) == Some(entry)
            case _ => false
  {
    LastWriteWins(ops, kv, matches, WriteAt(ops, i).value.key, i);
  }

  // ---------------------------------------------------------------------
  // Assert-abort

  /** The `AssertValue` operation `i` fails against the view its predecessors built. */
  ghost predicate AssertFailsAt(ops: seq<Operation>, kv: KV, matches: (Bytes, Bytes) -> bool, i: int)
  {
    0 <= i < |ops| && Exec(ops[..i], kv, matches).Some? &&
    AssertFails(ContextAfter(ops[..i]), Exec(ops[..i], kv, matches).value, ops[i], matches)
  }

  /** Once a prefix aborted, the whole batch aborts. */
  lemma {:induction false} AbortExtends(ops: seq<Operation>, kv: KV, matches: (Bytes, Bytes) -> bool, i: nat)
    requires i <= |ops| && Exec(ops[..i], kv, matches).None?
    ensures Exec(ops, kv, matches).None?
    decreases |ops| - i
  {
    if i < |ops| {
      assert ops[..i + 1][..i] == ops[..i];
      AbortExtends(ops, kv, matches, i + 1);
    } else {
      assert ops[..i] == ops;
    }
  }

  /** A batch aborts exactly when one of its asserts fails where it stands. */
  lemma {:induction false} AbortIffAssertFails(ops: seq<Operation>, kv: KV, matches: (Bytes, Bytes) -> bool)
    ensures Exec(ops, kv, matches).None? <==> exists i :: AssertFailsAt(ops, kv, matches, i)
  {
    if ops != [] {
      var p := Init(ops);
      var n := |p|;
      AbortIffAssertFails(p, kv, matches);
      assert ops[..n] == p;
      forall i | 0 <= i < n
        ensures AssertFailsAt(p, kv, matches, i) <==> AssertFailsAt(ops, kv, matches, i)
      {
        PrefixOfInit(ops, i);
      }
      if Exec(ops, kv, matches).None? && Exec(p, kv, matches).Some? {
        assert AssertFailsAt(ops, kv, matches, n);
      }
      if Exec(p, kv, matches).None? {
        var i :| AssertFailsAt(p, kv, matches, i);
        assert AssertFailsAt(ops, kv, matches, i);
      }
    }
  }

  // ---------------------------------------------------------------------
  // Bitmap groups

  /**
   * Operation `i` is a bitmap operation of kind `isSet` whose key, under
   * the context in force there, is `k` and whose document id is `id`.
   */
  ghost predicate RecordsBit(ops: seq<Operation>, isSet: bool, blockNum: u32 -> u32, i: int, k: BitmapKey, id: u32)
  {
    0 <= i < |ops| && ops[i].Bitmap? && ops[i].isSet == isSet &&
    BitmapKeyOf(ContextAfter(ops[..i]), ops[i], blockNum) == k &&
    ContextAfter(ops[..i]).documentId == id
  }

  /**
   * An id is in a group entry exactly when some bitmap operation of that
   * kind recorded it there: every recorded id lands in the entry of its
   * own key (with the block number of its document id) and nothing else
   * is in a group.
   */
  lemma {:induction false} GroupsExact(ops: seq<Operation>, isSet: bool, blockNum: u32 -> u32, k: BitmapKey, id: u32)
    ensures (k in Groups(ops, isSet, blockNum) && id in Groups(ops, isSet, blockNum)[k]) <==>
            exists i :: RecordsBit(ops, isSet, blockNum, i, k, id)
  {
    if ops != [] {
      var p := Init(ops);
      var n := |p|;
      GroupsExact(p, isSet, blockNum, k, id);
      assert ops[..n] == p;
      forall i | 0 <= i < n
        ensures RecordsBit(p, isSet, blockNum, i, k, id) <==> RecordsBit(ops, isSet, blockNum, i, k, id)
      {
        PrefixOfInit(ops, i);
      }
      var g := Groups(p, isSet, blockNum);
      var op := Last(ops);
      var here := RecordsBit(ops, isSet, blockNum, n, k, id);
      var before := exists i :: RecordsBit(p, isSet, blockNum, i, k, id);
      assert (exists i :: RecordsBit(ops, isSet, blockNum, i, k, id)) <==> before || here by {
        if exists i :: RecordsBit(ops, isSet, blockNum, i, k, id) {
          var i :| RecordsBit(ops, isSet, blockNum, i, k, id);
          if i < n {
            assert RecordsBit(p, isSet, blockNum, i, k, id);
          }
        }
        if before {
          var i :| RecordsBit(p, isSet, blockNum, i, k, id);
          assert RecordsBit(ops, isSet, blockNum, i, k, id);
        }
      }
      if op.Bitmap? && op.isSet == isSet {
        var ctx := ContextAfter(p);
        var g' := AddToGroup(g, BitmapKeyOf(ctx, op, blockNum), ctx.documentId);
        assert Groups(ops, isSet, blockNum) == g';
        assert here <==> BitmapKeyOf(ctx, op, blockNum) == k && ctx.documentId == id;
      } else {
        assert !here;
      }
    }
  }

  /**
   * With every cleared id present beforehand (as the test-mode shadow
   * bitmaps assert), the XOR of a clear group removes exactly its ids: the
   * stored bitmap after the commit is the old one plus the set group minus
   * the clear group.
   */
  lemma ClearingSetBits(bm: Bitmaps, setGroups: Bitmaps, clearGroups: Bitmaps, k: BitmapKey)
    requires Get(clearGroups, k) <= Get(bm, k) + Get(setGroups, k)
    ensures Get(ApplyBitmaps(bm, setGroups, clearGroups), k) == (Get(bm, k) + Get(setGroups, k)) - Get(clearGroups, k)
  {
  }

  // ---------------------------------------------------------------------
  // Commit retry

  /**
   * A write that commits does so at attempt m, at most `limit`: every
   * earlier attempt met a conflict and attempt m itself committed.
   */
  lemma {:induction false} CommitRunCommitted(outcomes: seq<CommitOutcome>, limit: nat, n: nat)
    requires CommitRun(outcomes, limit, n).Ok?
    ensures var m := CommitRun(outcomes, limit, n).value;
            n <= m < |outcomes| && m <= if n <= limit then limit else n
    ensures var m := CommitRun(outcomes, limit, n).value;
            m < |outcomes| && outcomes[m] == Committed && forall j :: n <= j < m ==> outcomes[j] == Conflict
    decreases |outcomes| - n
  {
    if OutcomeAt(outcomes, n) == Conflict {
      CommitRunCommitted(outcomes, limit, n + 1);
    }
  }

  /** `Store::write` therefore makes at most MAX_COMMIT_ATTEMPTS + 1 commit attempts. */
  lemma WriteAttemptsBounded(outcomes: seq<CommitOutcome>)
    requires CommitRun(outcomes, MAX_COMMIT_ATTEMPTS, 0).Ok?
    ensures CommitRun(outcomes, MAX_COMMIT_ATTEMPTS, 0).value <= MAX_COMMIT_ATTEMPTS
  {
    CommitRunCommitted(outcomes, MAX_COMMIT_ATTEMPTS, 0);
  }
}
