/**
 * The ACL methods of the JMAP server: `acl_set` on the changes of an
 * object, `map_acl_set`, `effective_acl`, `refresh_acls` and the access
 * queries `has_access_to_document`, `shared_documents` and
 * `owned_or_shared_documents`. Storage and directory lookups are
 * parameters.
 */
module JmapAclMethods {
  import opened Wrappers
  import opened Ints
  import opened JmapAcl

  /** A storage failure, propagated unchanged. */
  datatype StoreError = StoreError(cause: string)

  /** One result of an ACL query: a document shared with the account, with its rights as a bit mask. */
  datatype AclItem = AclItem(toDocumentId: u32, permissions: u64)

  /** The accounts whose grants count for a token, in the order they are tried. */
  function GrantAccounts(token: AccessToken): (accounts: seq<u32>)
    ensures forall a :: a in accounts <==> IsMember(token, a)
    ensures |accounts| >= 1 && accounts[0] == token.primaryId
  {
    [token.primaryId] + token.memberOf
  }

  /** `Prepend(p, r)` puts `p` in front of a successful list result. */
  function Prepend(p: seq<AclGrant>, r: Result<seq<AclGrant>, SetError>): Result<seq<AclGrant>, SetError>
  {
    match r
    case Ok(rest) => Ok(p + rest)
    case Err(e) => Err(e)
  }

  /** `map_acl_set`: the client's list read two elements at a time. */
  method MapAclSet(values: seq<Value>, lookup: string -> Lookup) returns (r: Result<seq<AclGrant>, SetError>)
    ensures r == MapAclSetSpec(values, lookup)
  {
    var acls: seq<AclGrant> := [];
    var i := 0;
    assert values[0..] == values;
    match MapAclSetSpec(values, lookup) {
      case Ok(all) => assert [] + all == all;
      case Err(_) =>
    }
    while i + 1 < |values|
      invariant 0 <= i <= |values|
      invariant Prepend(acls, MapAclSetSpec(values[i..], lookup)) == MapAclSetSpec(values, lookup)
      decreases |values| - i
    {
      assert values[i..][2..] == values[i + 2..];
      var g := PairGrant(values[i], values[i + 1], lookup);
      if g.Err? {
        return Err(g.error);
      }
      assert acls + ([g.value] + []) == acls + [g.value];
      match MapAclSetSpec(values[i + 2..], lookup) {
        case Ok(rest) => assert acls + ([g.value] + rest) == (acls + [g.value]) + rest;
        case Err(_) =>
      }
      acls := acls + [g.value];
      i := i + 2;
    }
    assert acls + [] == acls;
    return Ok(acls);
  }

  /** `effective_acl`: the rights the token holds on an object. */
  method EffectiveAcl(properties: map<Property, Value>, token: AccessToken) returns (acl: set<Acl>)
    ensures acl == if AclOf(properties).Some? then EffectiveGrants(token, AclOf(properties).value) else {}
  {
    acl := {};
    if AclProperty in properties && properties[AclProperty].AclValue? {
      var permissions := properties[AclProperty].acl;
      var i := 0;
      while i < |permissions|
        invariant 0 <= i <= |permissions|
        invariant acl == EffectiveGrants(token, permissions[..i])
      {
        assert permissions[..i + 1][..i] == permissions[..i];
        var item := permissions[i];
        if IsMember(token, item.accountId) {
          acl := acl + item.grants;
        }
        i := i + 1;
      }
      assert permissions[..|permissions|] == permissions;
    }
  }

  /** The inner loop of `refresh_acls`: compare an entry with the first entry of its account in the other list. */
  method ShouldInvalidate(item: AclGrant, other: seq<AclGrant>) returns (invalidate: bool)
    ensures invalidate == Invalidates(item, other)
  {
    invalidate := true;
    var j := 0;
    while j < |other|
      invariant 0 <= j <= |other|
      invariant forall k :: 0 <= k < j ==> other[k].accountId != item.accountId
    {
      if other[j].accountId == item.accountId {
        invalidate := other[j].grants != item.grants;
        assert FindAccount(other, item.accountId) == Some(j);
        break;
      }
      j := j + 1;
    }
  }

  /** One pass of `refresh_acls`: the accounts of `items` that invalidate against `other`. */
  method FlagChanged(items: seq<AclGrant>, other: seq<AclGrant>, changed: set<u32>) returns (r: set<u32>)
    ensures r == changed + FlaggedFrom(items, other)
  {
    r := changed;
    var i := 0;
    while i < |items|
      invariant 0 <= i <= |items|
      invariant r == changed + FlaggedFrom(items[..i], other)
    {
      assert items[..i + 1][..i] == items[..i];
      var invalidate := ShouldInvalidate(items[i], other);
      if invalidate {
        r := r + {items[i].accountId};
      }
      i := i + 1;
    }
    assert items[..|items|] == items;
  }

  /** The grant list of the current object, when it has one. */
  function CurrentAcl(current: Option<map<Property, Value>>): Option<seq<AclGrant>>
  {
    if current.Some? then AclOf(current.value) else None
  }

  /**
   * `refresh_acls`: when the changes hold a grant list, the principals
   * whose token revision is incremented; `None` when nothing is done.
   */
  method RefreshAcls(changes: map<Property, Value>, current: Option<map<Property, Value>>) returns (r: Option<set<u32>>)
    ensures r.Some? <==> AclOf(changes).Some?
    ensures r.Some? ==> r.value == ChangedPrincipals(CurrentAcl(current), AclOf(changes).value)
  {
    if AclProperty in changes && changes[AclProperty].AclValue? {
      var aclChanges := changes[AclProperty].acl;
      var changed: set<u32> := {};
      if CurrentAcl(current).Some? {
        var aclCurrent := CurrentAcl(current).value;
        changed := FlagChanged(aclCurrent, aclChanges, changed);
        changed := FlagChanged(aclChanges, aclCurrent, changed);
      } else {
        var i := 0;
        while i < |aclChanges|
          invariant 0 <= i <= |aclChanges|
          invariant changed == AccountsOf(aclChanges[..i])
        {
          assert aclChanges[..i + 1][..i] == aclChanges[..i];
          changed := changed + {aclChanges[i].accountId};
          i := i + 1;
        }
        assert aclChanges[..|aclChanges|] == aclChanges;
      }
      return Some(changed);
    }
    return None;
  }

  // ---------------------------------------------------------------------
  // Access queries

  /** The stored rights of `grant` on one document intersect the rights asked for. */
  ghost predicate GrantsAccess(readAcl: (u32, u32, u8, u32) -> Result<Option<u64>, StoreError>, grant: u32,
                               toAccountId: u32, toCollection: u8, toDocumentId: u32, checkAcls: set<Acl>)
  {
    var stored := readAcl(grant, toAccountId, toCollection, toDocumentId);
    stored.Ok? && stored.value.Some? && GrantsFromBits(stored.value.value) * checkAcls != {}
  }

  /** What `has_access_to_document` answers, trying the accounts in order. */
  function AccessFrom(accounts: seq<u32>, readAcl: (u32, u32, u8, u32) -> Result<Option<u64>, StoreError>,
                      toAccountId: u32, toCollection: u8, toDocumentId: u32, checkAcls: set<Acl>): Result<bool, StoreError>
    decreases |accounts|
  {
    if accounts == [] then Ok(false)
    else
      match readAcl(accounts[0], toAccountId, toCollection, toDocumentId)
      case Err(e) => Err(e)
      case Ok(stored) =>
        if stored.Some? && GrantsFromBits(stored.value) * checkAcls != {} then Ok(true)
        else AccessFrom(accounts[1..], readAcl, toAccountId, toCollection, toDocumentId, checkAcls)
  }

  /** The stored rights of `grant` on the document were read without error. */
  ghost predicate ReadOk(readAcl: (u32, u32, u8, u32) -> Result<Option<u64>, StoreError>, grant: u32,
                         toAccountId: u32, toCollection: u8, toDocumentId: u32)
  {
    readAcl(grant, toAccountId, toCollection, toDocumentId).Ok?
  }

  /** Account `i` of the list grants access and every account before it was read without error. */
  ghost predicate GrantedAt(accounts: seq<u32>, readAcl: (u32, u32, u8, u32) -> Result<Option<u64>, StoreError>,
                            toAccountId: u32, toCollection: u8, toDocumentId: u32, checkAcls: set<Acl>, i: int)
  {
    0 <= i < |accounts| && GrantsAccess(readAcl, accounts[i], toAccountId, toCollection, toDocumentId, checkAcls) &&
    forall j :: 0 <= j < i ==> ReadOk(readAcl, accounts[j], toAccountId, toCollection, toDocumentId)
  }

  /** Access is granted exactly when some account grants it and every account tried before it was read without error. */
  lemma {:induction false} AccessGrantedExact(accounts: seq<u32>, readAcl: (u32, u32, u8, u32) -> Result<Option<u64>, StoreError>,
                                              toAccountId: u32, toCollection: u8, toDocumentId: u32, checkAcls: set<Acl>)
    ensures AccessFrom(accounts, readAcl, toAccountId, toCollection, toDocumentId, checkAcls) == Ok(true) <==>
      exists i :: GrantedAt(accounts, readAcl, toAccountId, toCollection, toDocumentId, checkAcls, i)
    decreases |accounts|
  {
    if accounts != [] {
      var tail := accounts[1..];
      AccessGrantedExact(tail, readAcl, toAccountId, toCollection, toDocumentId, checkAcls);
      if ReadOk(readAcl, accounts[0], toAccountId, toCollection, toDocumentId) &&
         !GrantsAccess(readAcl, accounts[0], toAccountId, toCollection, toDocumentId, checkAcls) {
        forall i | GrantedAt(accounts, readAcl, toAccountId, toCollection, toDocumentId, checkAcls, i)
          ensures GrantedAt(tail, readAcl, toAccountId, toCollection, toDocumentId, checkAcls, i - 1)
        {
          assert forall j :: 0 <= j < i - 1 ==> tail[j] == accounts[j + 1];
        }
        forall i | GrantedAt(tail, readAcl, toAccountId, toCollection, toDocumentId, checkAcls, i)
          ensures GrantedAt(accounts, readAcl, toAccountId, toCollection, toDocumentId, checkAcls, i + 1)
        {
          assert forall j :: 0 < j < i + 1 ==> accounts[j] == tail[j - 1];
        }
      } else if ReadOk(readAcl, accounts[0], toAccountId, toCollection, toDocumentId) {
        assert GrantedAt(accounts, readAcl, toAccountId, toCollection, toDocumentId, checkAcls, 0);
      }
    }
  }

  /** Access is refused exactly when every account was read and none grants it. */
  lemma {:induction false} AccessRefusedExact(accounts: seq<u32>, readAcl: (u32, u32, u8, u32) -> Result<Option<u64>, StoreError>,
                                              toAccountId: u32, toCollection: u8, toDocumentId: u32, checkAcls: set<Acl>)
    ensures AccessFrom(accounts, readAcl, toAccountId, toCollection, toDocumentId, checkAcls) == Ok(false) <==>
      forall i :: 0 <= i < |accounts| ==>
        ReadOk(readAcl, accounts[i], toAccountId, toCollection, toDocumentId) &&
        !GrantsAccess(readAcl, accounts[i], toAccountId, toCollection, toDocumentId, checkAcls)
    decreases |accounts|
  {
    if accounts != [] {
      var tail := accounts[1..];
      AccessRefusedExact(tail, readAcl, toAccountId, toCollection, toDocumentId, checkAcls);
      assert forall i :: 0 <= i < |tail| ==> tail[i] == accounts[i + 1];
      assert forall i :: 0 < i < |accounts| ==> accounts[i] == tail[i - 1];
    }
  }

  /** Without storage errors, access is granted exactly when some account of the token grants it. */
  lemma AccessWithoutErrors(token: AccessToken, readAcl: (u32, u32, u8, u32) -> Result<Option<u64>, StoreError>,
                            toAccountId: u32, toCollection: u8, toDocumentId: u32, checkAcls: set<Acl>)
    requires forall a :: ReadOk(readAcl, a, toAccountId, toCollection, toDocumentId)
    ensures AccessFrom(GrantAccounts(token), readAcl, toAccountId, toCollection, toDocumentId, checkAcls) ==
            Ok(exists a :: IsMember(token, a) && GrantsAccess(readAcl, a, toAccountId, toCollection, toDocumentId, checkAcls))
  {
    var accounts := GrantAccounts(token);
    AccessGrantedExact(accounts, readAcl, toAccountId, toCollection, toDocumentId, checkAcls);
    AccessRefusedExact(accounts, readAcl, toAccountId, toCollection, toDocumentId, checkAcls);
    if exists a :: IsMember(token, a) && GrantsAccess(readAcl, a, toAccountId, toCollection, toDocumentId, checkAcls) {
      var a :| IsMember(token, a) && GrantsAccess(readAcl, a, toAccountId, toCollection, toDocumentId, checkAcls);
      var i :| 0 <= i < |accounts| && accounts[i] == a;
      assert GrantedAt(accounts, readAcl, toAccountId, toCollection, toDocumentId, checkAcls, i);
    } else {
      forall i | 0 <= i < |accounts|
        ensures !GrantsAccess(readAcl, accounts[i], toAccountId, toCollection, toDocumentId, checkAcls)
      {
        assert IsMember(token, accounts[i]);
      }
    }
  }

  /** `has_access_to_document`. */
  method HasAccessToDocument(token: AccessToken, toAccountId: u32, toCollection: u8, toDocumentId: u32, checkAcls: set<Acl>,
                             readAcl: (u32, u32, u8, u32) -> Result<Option<u64>, StoreError>) returns (r: Result<bool, StoreError>)
    ensures r == AccessFrom(GrantAccounts(token), readAcl, toAccountId, toCollection, toDocumentId, checkAcls)
  {
    var accounts := GrantAccounts(token);
    var i := 0;
    while i < |accounts|
      invariant 0 <= i <= |accounts|
      invariant AccessFrom(accounts, readAcl, toAccountId, toCollection, toDocumentId, checkAcls) ==
                AccessFrom(accounts[i..], readAcl, toAccountId, toCollection, toDocumentId, checkAcls)
    {
      assert accounts[i..][1..] == accounts[i + 1..];
      match readAcl(accounts[i], toAccountId, toCollection, toDocumentId) {
        case Ok(Some(acls)) =>
          if GrantsFromBits(acls) * checkAcls != {} {
            return Ok(true);
          }
        case Ok(None) =>
        case Err(err) =>
          return Err(err);
      }
      i := i + 1;
    }
    return Ok(false);
  }

  /** The documents of one query result whose rights intersect the rights asked for. */
  function ItemsMatching(items: seq<AclItem>, checkAcls: set<Acl>): (docs: set<u32>)
    ensures forall d :: d in docs <==>
      exists k :: 0 <= k < |items| && items[k].toDocumentId == d && GrantsFromBits(items[k].permissions) * checkAcls != {}
  {
    set k | 0 <= k < |items| && GrantsFromBits(items[k].permissions) * checkAcls != {} :: items[k].toDocumentId
  }

  /** What `shared_documents` returns, querying the accounts in order. */
  function SharedFrom(accounts: seq<u32>, aclQuery: (u32, u32, u8) -> Result<seq<AclItem>, StoreError>,
                      toAccountId: u32, toCollection: u8, checkAcls: set<Acl>): Result<set<u32>, StoreError>
    decreases |accounts|
  {
    if accounts == [] then Ok({})
    else
      match aclQuery(accounts[0], toAccountId, toCollection)
      case Err(e) => Err(e)
      case Ok(items) =>
        match SharedFrom(accounts[1..], aclQuery, toAccountId, toCollection, checkAcls)
        case Err(e) => Err(e)
        case Ok(rest) => Ok(ItemsMatching(items, checkAcls) + rest)
  }

  /** A document is shared through one of the accounts when its query lists it with intersecting rights. */
  ghost predicate SharedThrough(aclQuery: (u32, u32, u8) -> Result<seq<AclItem>, StoreError>, grant: u32,
                                toAccountId: u32, toCollection: u8, checkAcls: set<Acl>, d: u32)
  {
    var items := aclQuery(grant, toAccountId, toCollection);
    items.Ok? && d in ItemsMatching(items.value, checkAcls)
  }

  /**
   * `shared_documents` succeeds exactly when every query does, and then
   * holds exactly the documents shared through some account of the list.
   */
  lemma {:induction false} SharedFromExact(accounts: seq<u32>, aclQuery: (u32, u32, u8) -> Result<seq<AclItem>, StoreError>,
                                           toAccountId: u32, toCollection: u8, checkAcls: set<Acl>, d: u32)
    ensures SharedFrom(accounts, aclQuery, toAccountId, toCollection, checkAcls).Ok? <==>
      forall i :: 0 <= i < |accounts| ==> aclQuery(accounts[i], toAccountId, toCollection).Ok?
    ensures SharedFrom(accounts, aclQuery, toAccountId, toCollection, checkAcls).Ok? ==>
      (d in SharedFrom(accounts, aclQuery, toAccountId, toCollection, checkAcls).value <==>
       exists i :: 0 <= i < |accounts| && SharedThrough(aclQuery, accounts[i], toAccountId, toCollection, checkAcls, d))
    decreases |accounts|
  {
    if accounts != [] {
      var tail := accounts[1..];
      SharedFromExact(tail, aclQuery, toAccountId, toCollection, checkAcls, d);
      assert forall i :: 0 <= i < |tail| ==> tail[i] == accounts[i + 1];
      if !aclQuery(accounts[0], toAccountId, toCollection).Ok? {
        assert !aclQuery(accounts[0], toAccountId, toCollection).Ok?;
      } else if SharedFrom(tail, aclQuery, toAccountId, toCollection, checkAcls).Err? {
        var i :| 0 <= i < |tail| && !aclQuery(tail[i], toAccountId, toCollection).Ok?;
        assert !aclQuery(accounts[i + 1], toAccountId, toCollection).Ok?;
      } else {
        assert forall i :: 0 <= i < |accounts| ==> i == 0 || accounts[i] == tail[i - 1];
        if exists i :: 0 <= i < |accounts| && SharedThrough(aclQuery, accounts[i], toAccountId, toCollection, checkAcls, d) {
          var i :| 0 <= i < |accounts| && SharedThrough(aclQuery, accounts[i], toAccountId, toCollection, checkAcls, d);
          if i > 0 {
            assert SharedThrough(aclQuery, tail[i - 1], toAccountId, toCollection, checkAcls, d);
          }
        }
      }
    }
  }

  /** The inner loop of `shared_documents`: add the documents of one query result whose rights intersect. */
  method AddMatching(documentIds: set<u32>, items: seq<AclItem>, checkAcls: set<Acl>) returns (r: set<u32>)
    ensures r == documentIds + ItemsMatching(items, checkAcls)
  {
    r := documentIds;
    var k := 0;
    while k < |items|
      invariant 0 <= k <= |items|
      invariant r == documentIds + ItemsMatching(items[..k], checkAcls)
    {
      assert items[..k + 1][..k] == items[..k] && items[..k + 1][k] == items[k];
      if GrantsFromBits(items[k].permissions) * checkAcls != {} {
        r := r + {items[k].toDocumentId};
      }
      k := k + 1;
    }
    assert items[..|items|] == items;
  }

  /** `shared_documents`. */
  method SharedDocuments(token: AccessToken, toAccountId: u32, toCollection: u8, checkAcls: set<Acl>,
                         aclQuery: (u32, u32, u8) -> Result<seq<AclItem>, StoreError>) returns (r: Result<set<u32>, StoreError>)
    ensures r == SharedFrom(GrantAccounts(token), aclQuery, toAccountId, toCollection, checkAcls)
  {
    var accounts := GrantAccounts(token);
    var documentIds: set<u32> := {};
    var i := 0;
    assert accounts[0..] == accounts;
    match SharedFrom(accounts, aclQuery, toAccountId, toCollection, checkAcls) {
      case Ok(all) => assert documentIds + all == all;
      case Err(_) =>
    }
    while i < |accounts|
      invariant 0 <= i <= |accounts|
      invariant var rest := SharedFrom(accounts[i..], aclQuery, toAccountId, toCollection, checkAcls);
        SharedFrom(accounts, aclQuery, toAccountId, toCollection, checkAcls) ==
        if rest.Ok? then Ok(documentIds + rest.value) else rest
    {
      assert accounts[i..][1..] == accounts[i + 1..];
      var query := aclQuery(accounts[i], toAccountId, toCollection);
      if query.Err? {
        return Err(query.error);
      }
      var items := query.value;
      var before := documentIds;
      documentIds := AddMatching(documentIds, items, checkAcls);
      match SharedFrom(accounts[i + 1..], aclQuery, toAccountId, toCollection, checkAcls) {
        case Ok(rest) =>
          assert before + (ItemsMatching(items, checkAcls) + rest) == documentIds + rest;
        case Err(_) =>
      }
      i := i + 1;
    }
    return Ok(documentIds);
  }

  /**
   * `owned_or_shared_documents`: all documents of the account for its
   * members, otherwise those also shared with the token. `stored` is the
   * account's document id set as read from storage.
   */
  method OwnedOrSharedDocuments(token: AccessToken, accountId: u32, collection: u8, checkAcls: set<Acl>,
                                stored: Result<Option<set<u32>>, StoreError>,
                                aclQuery: (u32, u32, u8) -> Result<seq<AclItem>, StoreError>) returns (r: Result<set<u32>, StoreError>)
    ensures stored.Err? ==> r == Err(stored.error)
    ensures stored.Ok? && (stored.value.None? || stored.value.value == {}) ==> r == Ok({})
    ensures stored.Ok? && IsMember(token, accountId) ==> r == Ok(stored.value.GetOr({}))
    ensures stored.Ok? && stored.value.Some? && stored.value.value != {} && !IsMember(token, accountId) ==>
      var shared := SharedFrom(GrantAccounts(token), aclQuery, accountId, collection, checkAcls);
      r == if shared.Ok? then Ok(stored.value.value * shared.value) else Err(shared.error)
  {
    if stored.Err? {
      return Err(stored.error);
    }
    var documentIds := stored.value.GetOr({});
    if documentIds != {} && !IsMember(token, accountId) {
      var shared := SharedDocuments(token, accountId, collection, checkAcls, aclQuery);
      if shared.Err? {
        return Err(shared.error);
      }
      documentIds := documentIds * shared.value;
    }
    return Ok(documentIds);
  }

  // ---------------------------------------------------------------------
  // acl_set

  /**
   * The value a patch starts from: the `acl` already among the changes,
   * else the current object's, else an empty list.
   */
  function PatchBase(properties: map<Property, Value>, current: Option<map<Property, Value>>): Value
  {
    if AclProperty in properties then properties[AclProperty]
    else if current.Some? && AclProperty in current.value then current.value[AclProperty]
    else AclValue([])
  }

  /** The properties an object update sets. */
  class ObjectChanges {
    var properties: map<Property, Value>

    constructor (properties: map<Property, Value>)
      ensures this.properties == properties
    {
      this.properties := properties;
    }

    /**
     * `acl_set`: set the object's `acl` from a whole list or apply a
     * patch. A patch first inserts its starting value among the changes
     * (`get_mut_or_insert_with`), so that insertion stays even when that
     * value is not a grant list and the patch fails.
     */
    method AclSet(current: Option<map<Property, Value>>, aclChanges: MaybePatchValue, lookup: string -> Lookup)
      returns (r: Result<(), SetError>)
      requires aclChanges.Patch? ==> |aclChanges.patch| >= 2
      modifies this
      ensures aclChanges.WholeValue? && aclChanges.value.List? ==>
        var mapped := MapAclSetSpec(aclChanges.value.items, lookup);
        (r.Ok? <==> mapped.Ok?) &&
        (mapped.Ok? ==> properties == old(properties)[AclProperty := AclValue(mapped.value)]) &&
        (mapped.Err? ==> r == Err(mapped.error) && properties == old(properties))
      ensures aclChanges.WholeValue? && !aclChanges.value.List? ==>
        r == Err(SetError(InvalidProperties, INVALID_ACL_PROPERTY)) && properties == old(properties)
      ensures aclChanges.Patch? && MapAclPatch(aclChanges.patch, lookup).Err? ==>
        r == Err(MapAclPatch(aclChanges.patch, lookup).error) && properties == old(properties)
      ensures aclChanges.Patch? && MapAclPatch(aclChanges.patch, lookup).Ok? ==>
        var base := PatchBase(old(properties), current);
        var (patch, isUpdate) := MapAclPatch(aclChanges.patch, lookup).value;
        (!base.AclValue? ==>
           r == Err(SetError(InvalidProperties, INVALID_ACL_VALUE)) && properties == old(properties)[AclProperty := base]) &&
        (base.AclValue? ==>
           r.Ok? &&
           exists item: Acl :: (patch.grants != {} ==> item in patch.grants) &&
             properties == old(properties)[AclProperty := AclValue(PatchAcl(base.acl, patch, isUpdate, item))])
    {
      match aclChanges {
        case WholeValue(List(values)) =>
          var mapped := MapAclSet(values, lookup);
          if mapped.Err? {
            return Err(mapped.error);
          }
          properties := properties[AclProperty := AclValue(mapped.value)];
          return Ok(());
        case Patch(operands) =>
          var mapped := MapAclPatch(operands, lookup);
          if mapped.Err? {
            return Err(mapped.error);
          }
          var (patch, isUpdate) := mapped.value;
          var base := PatchBase(properties, current);
          properties := properties[AclProperty := base];
          if !base.AclValue? {
            return Err(SetError(InvalidProperties, INVALID_ACL_VALUE));
          }
          var item: Acl := 0;
          if patch.grants != {} {
            item :| item in patch.grants;
          }
          properties := properties[AclProperty := AclValue(PatchAcl(base.acl, patch, isUpdate, item))];
          return Ok(());
        case WholeValue(_) =>
          return Err(SetError(InvalidProperties, INVALID_ACL_PROPERTY));
      }
    }
  }
}
