/**
 * The JMAP ACL grant lists: the values an `acl` property holds, the
 * mapping of client input onto grants, the patch rules of `acl_set`, the
 * effective rights of an access token, the set of principals whose
 * permissions changed, and the visibility guard of `acl_get`.
 */
module JmapAcl {
  import opened Wrappers
  import opened Ints

  /**
   * An access right, as its bit position in the `u64` representation of a
   * `Bitmap<Acl>`. The enum itself is defined outside this model.
   */
  type Acl = b: int | 0 <= b < 64

  /** The position of `Acl::Administer` in the enum (defined outside this model). */
  const ADMINISTER: Acl := 8

  function Pow2(n: nat): (p: nat)
    ensures p >= 1
  {
    if n == 0 then 1 else 2 * Pow2(n - 1)
  }

  /** Bit `b` of `x`. */
  predicate Bit(x: u64, b: Acl)
  {
    (x / Pow2(b)) % 2 == 1
  }

  /** `Bitmap::<Acl>::from(x)`: the rights whose bits are set in `x`. */
  function GrantsFromBits(x: u64): (s: set<Acl>)
    ensures forall b: Acl :: b in s <==> Bit(x, b)
  {
    set b: Acl | 0 <= b < 64 && Bit(x, b)
  }

  /** One entry of a grant list: the rights given to an account. */
  datatype AclGrant = AclGrant(accountId: u32, grants: set<Acl>)

  /** The account a session acts as and the groups it belongs to. */
  datatype AccessToken = AccessToken(primaryId: u32, memberOf: seq<u32>)

  /** `AccessToken::is_member` (defined outside this model): the account itself or one of its groups. */
  predicate IsMember(token: AccessToken, accountId: u32)
  {
    accountId == token.primaryId || accountId in token.memberOf
  }

  /** The JMAP values the ACL code takes apart or builds. */
  datatype Value =
    | Text(text: string)
    | UnsignedInt(number: u64)
    | Bool(flag: bool)
    | List(items: seq<Value>)
    | AclValue(acl: seq<AclGrant>)
    | Null
    | OtherValue

  /** `Value::as_bool`. */
  function AsBool(v: Value): (r: Option<bool>)
    ensures r.Some? <==> v.Bool?
  {
    if v.Bool? then Some(v.flag) else None
  }

  datatype Property = AclProperty | OtherProperty(name: string)

  /** A property change: a whole value or a patch path's operands. */
  datatype MaybePatchValue = WholeValue(value: Value) | Patch(patch: seq<Value>)

  datatype SetErrorKind = InvalidProperties | Forbidden

  /** A `SetError` on the `acl` property. */
  datatype SetError = SetError(kind: SetErrorKind, description: string)

  const INVALID_ACL_VALUE: string := "Invalid ACL value found."
  const INVALID_ACL_PROPERTY: string := "Invalid ACL property."
  const LOOKUP_FAILURE: string := "Temporary server failure during lookup"

  /** The answer of a directory query by name. */
  datatype Lookup = Found(id: u32) | NotFound | LookupFailed

  // ---------------------------------------------------------------------
  // Reading client input

  /**
   * One (name, grants) pair of client input: the account named must
   * exist and the grants are a bit mask.
   */
  function PairGrant(name: Value, grants: Value, lookup: string -> Lookup): (r: Result<AclGrant, SetError>)
    ensures r.Ok? <==> name.Text? && grants.UnsignedInt? && lookup(name.text).Found?
    ensures r.Ok? ==> r.value == AclGrant(lookup(name.text).id, GrantsFromBits(grants.number))
    ensures r.Err? && !(name.Text? && grants.UnsignedInt?) ==> r.error == SetError(InvalidProperties, INVALID_ACL_VALUE)
    ensures r.Err? && name.Text? && grants.UnsignedInt? ==>
      r.error == if lookup(name.text).NotFound?
                 then SetError(InvalidProperties, "Account " + name.text + " does not exist.")
                 else SetError(Forbidden, LOOKUP_FAILURE)
  {
    if name.Text? && grants.UnsignedInt? then
      match lookup(name.text)
      case Found(id) => Ok(AclGrant(id, GrantsFromBits(grants.number)))
      case NotFound => Err(SetError(InvalidProperties, "Account " + name.text + " does not exist."))
      case LookupFailed => Err(SetError(Forbidden, LOOKUP_FAILURE))
    else Err(SetError(InvalidProperties, INVALID_ACL_VALUE))
  }

  /**
   * What `map_acl_set` returns: the input read in consecutive pairs
   * (a trailing odd element is ignored), stopping at the first bad pair.
   */
  function MapAclSetSpec(values: seq<Value>, lookup: string -> Lookup): Result<seq<AclGrant>, SetError>
    decreases |values|
  {
    if |values| < 2 then Ok([])
    else
      match PairGrant(values[0], values[1], lookup)
      case Err(e) => Err(e)
      case Ok(g) =>
        match MapAclSetSpec(values[2..], lookup)
        case Err(e) => Err(e)
        case Ok(rest) => Ok([g] + rest)
  }

  /** Pair `i` of the input is good. */
  ghost predicate PairOk(values: seq<Value>, lookup: string -> Lookup, i: int)
  {
    0 <= i && 2 * i + 1 < |values| && PairGrant(values[2 * i], values[2 * i + 1], lookup).Ok?
  }

  /**
   * `map_acl_set` succeeds exactly when every pair is good, and then its
   * i-th grant is the one of pair i, in input order.
   */
  lemma {:induction false} MapAclSetPairs(values: seq<Value>, lookup: string -> Lookup)
    ensures MapAclSetSpec(values, lookup).Ok? <==> forall i :: 0 <= i < |values| / 2 ==> PairOk(values, lookup, i)
    ensures MapAclSetSpec(values, lookup).Ok? ==>
      var acls := MapAclSetSpec(values, lookup).value;
      |acls| == |values| / 2 &&
      forall i :: 0 <= i < |acls| ==>
        PairOk(values, lookup, i) && acls[i] == PairGrant(values[2 * i], values[2 * i + 1], lookup).value
    decreases |values|
  {
    if |values| >= 2 {
      var tail := values[2..];
      MapAclSetPairs(tail, lookup);
      assert forall i :: 0 <= i < |tail| / 2 ==> (PairOk(tail, lookup, i) <==> PairOk(values, lookup, i + 1)) by {
        forall i | 0 <= i < |tail| / 2 ensures PairOk(tail, lookup, i) <==> PairOk(values, lookup, i + 1) {
          assert tail[2 * i] == values[2 * (i + 1)] && tail[2 * i + 1] == values[2 * (i + 1) + 1];
        }
      }
      if PairGrant(values[0], values[1], lookup).Ok? && MapAclSetSpec(tail, lookup).Ok? {
        var acls := MapAclSetSpec(values, lookup).value;
        forall i | 0 <= i < |acls|
          ensures PairOk(values, lookup, i) && acls[i] == PairGrant(values[2 * i], values[2 * i + 1], lookup).value
        {
          if i > 0 {
            assert tail[2 * (i - 1)] == values[2 * i] && tail[2 * (i - 1) + 1] == values[2 * i + 1];
          }
        }
      }
      if !PairGrant(values[0], values[1], lookup).Ok? {
        assert !PairOk(values, lookup, 0);
      }
      if PairGrant(values[0], values[1], lookup).Ok? && !MapAclSetSpec(tail, lookup).Ok? {
        var i :| 0 <= i < |tail| / 2 && !PairOk(tail, lookup, i);
        assert !PairOk(values, lookup, i + 1);
      }
    }
  }

  /** The error `map_acl_set` reports is that of the first bad pair. */
  lemma {:induction false} MapAclSetFirstError(values: seq<Value>, lookup: string -> Lookup, i: nat)
    requires 2 * i + 1 < |values| && !PairOk(values, lookup, i)
    requires forall j :: 0 <= j < i ==> PairOk(values, lookup, j)
    ensures MapAclSetSpec(values, lookup) == Err(PairGrant(values[2 * i], values[2 * i + 1], lookup).error)
    decreases i
  {
    if i > 0 {
      var tail := values[2..];
      assert PairOk(values, lookup, 0);
      forall j | 0 <= j < i - 1 ensures PairOk(tail, lookup, j) {
        assert PairOk(values, lookup, j + 1);
        assert tail[2 * j] == values[2 * (j + 1)] && tail[2 * j + 1] == values[2 * (j + 1) + 1];
      }
      assert tail[2 * (i - 1)] == values[2 * i] && tail[2 * (i - 1) + 1] == values[2 * i + 1];
      MapAclSetFirstError(tail, lookup, i - 1);
    }
  }

  /**
   * `map_acl_patch`: the first two operands name the account and the
   * grants, and a third operand, when present, is the update flag
   * (`true` adds, anything but `true` removes).
   */
  function MapAclPatch(patch: seq<Value>, lookup: string -> Lookup): (r: Result<(AclGrant, Option<bool>), SetError>)
    requires |patch| >= 2
    ensures r.Ok? <==> PairGrant(patch[0], patch[1], lookup).Ok?
    ensures r.Ok? ==> r.value.0 == PairGrant(patch[0], patch[1], lookup).value
    ensures r.Err? ==> r.error == PairGrant(patch[0], patch[1], lookup).error
    ensures r.Ok? ==> (r.value.1.Some? <==> |patch| > 2)
    ensures r.Ok? && |patch| > 2 ==> (r.value.1.value <==> patch[2] == Bool(true))
  {
    match PairGrant(patch[0], patch[1], lookup)
    case Err(e) => Err(e)
    case Ok(g) => Ok((g, if |patch| > 2 then Some(AsBool(patch[2]).GetOr(false)) else None))
  }

  // ---------------------------------------------------------------------
  // Grant lists

  /** The position of the first entry for the account, if there is one. */
  function FindAccount(acl: seq<AclGrant>, accountId: u32): (r: Option<nat>)
    ensures r.Some? ==> r.value < |acl| && acl[r.value].accountId == accountId &&
                        forall j :: 0 <= j < r.value ==> acl[j].accountId != accountId
    ensures r.None? ==> forall j :: 0 <= j < |acl| ==> acl[j].accountId != accountId
  {
    if acl == [] then None
    else if acl[0].accountId == accountId then Some(0)
    else
      match FindAccount(acl[1..], accountId)
      case None => None
      case Some(i) => Some(i + 1)
  }

  /** The grants of the first entry for the account, if any. */
  function FirstGrants(acl: seq<AclGrant>, accountId: u32): Option<set<Acl>>
  {
    match FindAccount(acl, accountId)
    case None => None
    case Some(i) => Some(acl[i].grants)
  }

  /** The list without the account's entries, the others kept in order. */
  function Retain(acl: seq<AclGrant>, accountId: u32): (r: seq<AclGrant>)
    ensures forall g :: g in r <==> g in acl && g.accountId != accountId
  {
    if acl == [] then []
    else (if acl[0].accountId != accountId then [acl[0]] else []) + Retain(acl[1..], accountId)
  }

  /** The entries for one account, in list order. */
  function EntriesFor(acl: seq<AclGrant>, accountId: u32): seq<AclGrant>
  {
    if acl == [] then []
    else (if acl[0].accountId == accountId then [acl[0]] else []) + EntriesFor(acl[1..], accountId)
  }

  /** Every account has at most one entry. */
  ghost predicate AccountsUnique(acl: seq<AclGrant>)
  {
    forall i, j :: 0 <= i < j < |acl| ==> acl[i].accountId != acl[j].accountId
  }

  /**
   * The grant list after a patch for `patch.accountId`. With an update
   * flag one right `item` (popped from the patch's grants) is added or
   * removed; without one the grants are replaced, or the account's
   * entries deleted when the patch grants nothing.
   */
  function PatchAcl(acl: seq<AclGrant>, patch: AclGrant, isUpdate: Option<bool>, item: Acl): seq<AclGrant>
  {
    match isUpdate
    case Some(isSet) =>
      if patch.grants == {} then acl
      else (
        match FindAccount(acl, patch.accountId)
        case Some(i) =>
          if isSet then acl[i := acl[i].(grants := acl[i].grants + {item})]
          else
            var remaining := acl[i].grants - {item};
            var updated := acl[i := acl[i].(grants := remaining)];
            if remaining == {} then Retain(updated, patch.accountId) else updated
        case None => if isSet then acl + [patch] else acl)
    case None =>
      if patch.grants != {} then (
        match FindAccount(acl, patch.accountId)
        case Some(i) => acl[i := acl[i].(grants := patch.grants)]
        case None => acl + [patch])
      else Retain(acl, patch.accountId)
  }

  lemma {:induction false} EntriesForRetain(acl: seq<AclGrant>, accountId: u32, other: u32)
    ensures EntriesFor(Retain(acl, accountId), other) == if other == accountId then [] else EntriesFor(acl, other)
    decreases |acl|
  {
    if acl != [] {
      EntriesForRetain(acl[1..], accountId, other);
      var head := if acl[0].accountId != accountId then [acl[0]] else [];
      assert Retain(acl, accountId) == head + Retain(acl[1..], accountId);
      EntriesForConcat(head, Retain(acl[1..], accountId), other);
    }
  }

  lemma {:induction false} EntriesForConcat(a: seq<AclGrant>, b: seq<AclGrant>, accountId: u32)
    ensures EntriesFor(a + b, accountId) == EntriesFor(a, accountId) + EntriesFor(b, accountId)
    decreases |a|
  {
    if a != [] {
      assert (a + b)[0] == a[0];
      assert (a + b)[1..] == a[1..] + b;
      EntriesForConcat(a[1..], b, accountId);
    } else {
      assert a + b == b;
    }
  }

  /** Rewriting the entry at `i` of account `accountId` leaves other accounts' entries as they were. */
  lemma {:induction false} EntriesForUpdate(acl: seq<AclGrant>, i: nat, grants: set<Acl>, other: u32)
    requires i < |acl| && acl[i].accountId != other
    ensures EntriesFor(acl[i := acl[i].(grants := grants)], other) == EntriesFor(acl, other)
    decreases |acl|
  {
    var updated := acl[i := acl[i].(grants := grants)];
    if i > 0 {
      assert updated[1..] == acl[1..][i - 1 := acl[i].(grants := grants)];
      EntriesForUpdate(acl[1..], i - 1, grants, other);
    } else {
      assert updated[1..] == acl[1..];
    }
  }

  /** A patch leaves the entries of every other account exactly as they were, in order. */
  lemma PatchOthersUntouched(acl: seq<AclGrant>, patch: AclGrant, isUpdate: Option<bool>, item: Acl, other: u32)
    requires other != patch.accountId
    ensures EntriesFor(PatchAcl(acl, patch, isUpdate, item), other) == EntriesFor(acl, other)
  {
    var a := patch.accountId;
    var found := FindAccount(acl, a);
    var result := PatchAcl(acl, patch, isUpdate, item);
    if found.None? {
      if result != acl {
        if result == acl + [patch] {
          EntriesForConcat(acl, [patch], other);
        } else {
          EntriesForRetain(acl, a, other);
        }
      }
    } else {
      var i := found.value;
      match isUpdate {
        case None =>
          if patch.grants != {} {
            EntriesForUpdate(acl, i, patch.grants, other);
          } else {
            EntriesForRetain(acl, a, other);
          }
        case Some(isSet) =>
          if patch.grants != {} {
            if isSet {
              EntriesForUpdate(acl, i, acl[i].grants + {item}, other);
            } else {
              var updated := acl[i := acl[i].(grants := acl[i].grants - {item})];
              EntriesForUpdate(acl, i, acl[i].grants - {item}, other);
              EntriesForRetain(updated, a, other);
            }
          }
      }
    }
  }

  /** The first entry of the account after rewriting its first entry. */
  lemma FirstGrantsUpdate(acl: seq<AclGrant>, accountId: u32, grants: set<Acl>)
    requires FindAccount(acl, accountId).Some?
    ensures FirstGrants(acl[FindAccount(acl, accountId).value := acl[FindAccount(acl, accountId).value].(grants := grants)], accountId) == Some(grants)
  {
    var i := FindAccount(acl, accountId).value;
    var updated := acl[i := acl[i].(grants := grants)];
    assert updated[i].accountId == accountId;
    var j := FindAccount(updated, accountId);
    assert j.Some? && j.value <= i;
    assert j.value == i;
  }

  /** The first entry of the account after appending an entry for an account that had none. */
  lemma FirstGrantsAppend(acl: seq<AclGrant>, entry: AclGrant)
    requires FindAccount(acl, entry.accountId).None?
    ensures FirstGrants(acl + [entry], entry.accountId) == Some(entry.grants)
  {
    var appended := acl + [entry];
    assert appended[|acl|] == entry;
    assert forall k :: 0 <= k < |acl| ==> appended[k] == acl[k];
    var j := FindAccount(appended, entry.accountId);
    assert j.Some? && j.value == |acl|;
  }

  /** With no update flag and some grants, the account's (first) entry holds exactly the patch grants. */
  lemma PatchReplaces(acl: seq<AclGrant>, patch: AclGrant, item: Acl)
    requires patch.grants != {}
    ensures FirstGrants(PatchAcl(acl, patch, None, item), patch.accountId) == Some(patch.grants)
  {
    if FindAccount(acl, patch.accountId).Some? {
      FirstGrantsUpdate(acl, patch.accountId, patch.grants);
    } else {
      FirstGrantsAppend(acl, patch);
    }
  }

  /** With no update flag and no grants, every entry of the account is removed. */
  lemma PatchRemovesAccount(acl: seq<AclGrant>, patch: AclGrant, item: Acl)
    requires patch.grants == {}
    ensures EntriesFor(PatchAcl(acl, patch, None, item), patch.accountId) == []
  {
    EntriesForRetain(acl, patch.accountId, patch.accountId);
  }

  /**
   * With update flag `true`, the popped right joins the account's entry;
   * an account without one gets the whole patch appended.
   */
  lemma PatchAddsGrant(acl: seq<AclGrant>, patch: AclGrant, item: Acl)
    requires patch.grants != {}
    ensures var before := FirstGrants(acl, patch.accountId);
            FirstGrants(PatchAcl(acl, patch, Some(true), item), patch.accountId) ==
              if before.Some? then Some(before.value + {item}) else Some(patch.grants)
  {
    var found := FindAccount(acl, patch.accountId);
    if found.Some? {
      FirstGrantsUpdate(acl, patch.accountId, acl[found.value].grants + {item});
    } else {
      FirstGrantsAppend(acl, patch);
    }
  }

  /**
   * With update flag `false`, the popped right leaves the account's
   * entry, and the account's entries go once no right is left; an
   * account without an entry leaves the list unchanged.
   */
  lemma PatchRemovesGrant(acl: seq<AclGrant>, patch: AclGrant, item: Acl)
    requires patch.grants != {}
    ensures var before := FirstGrants(acl, patch.accountId);
            var after := PatchAcl(acl, patch, Some(false), item);
            (before.None? ==> after == acl) &&
            (before.Some? && before.value - {item} == {} ==> EntriesFor(after, patch.accountId) == []) &&
            (before.Some? && before.value - {item} != {} ==> FirstGrants(after, patch.accountId) == Some(before.value - {item}))
  {
    var found := FindAccount(acl, patch.accountId);
    if found.Some? {
      var i := found.value;
      FirstGrantsUpdate(acl, patch.accountId, acl[i].grants - {item});
      EntriesForRetain(acl[i := acl[i].(grants := acl[i].grants - {item})], patch.accountId, patch.accountId);
    }
  }

  /** A patch keeps a list with one entry per account so. */
  lemma PatchKeepsAccountsUnique(acl: seq<AclGrant>, patch: AclGrant, isUpdate: Option<bool>, item: Acl)
    requires AccountsUnique(acl)
    ensures AccountsUnique(PatchAcl(acl, patch, isUpdate, item))
  {
    RetainKeepsAccountsUnique(acl, patch.accountId);
    var found := FindAccount(acl, patch.accountId);
    if found.Some? {
      var i := found.value;
      var updated := acl[i := acl[i].(grants := acl[i].grants - {item})];
      assert AccountsUnique(updated);
      RetainKeepsAccountsUnique(updated, patch.accountId);
    }
  }

  lemma {:induction false} RetainKeepsAccountsUnique(acl: seq<AclGrant>, accountId: u32)
    requires AccountsUnique(acl)
    ensures AccountsUnique(Retain(acl, accountId))
    decreases |acl|
  {
    if acl != [] {
      RetainKeepsAccountsUnique(acl[1..], accountId);
      var rest := Retain(acl[1..], accountId);
      if acl[0].accountId != accountId {
        forall j | 0 <= j < |rest| ensures rest[j].accountId != acl[0].accountId {
          assert rest[j] in acl[1..];
        }
        assert Retain(acl, accountId) == [acl[0]] + rest;
      }
    }
  }

  // ---------------------------------------------------------------------
  // Effective rights and visibility

  /** `effective_acl` over a grant list: the union of the rights of the entries the token is a member of. */
  function EffectiveGrants(token: AccessToken, acl: seq<AclGrant>): set<Acl>
  {
    if acl == [] then {}
    else
      var last := acl[|acl| - 1];
      EffectiveGrants(token, acl[..|acl| - 1]) + if IsMember(token, last.accountId) then last.grants else {}
  }

  /** A right is effective exactly when some entry of an account the token belongs to grants it. */
  lemma {:induction false} EffectiveGrantsExact(token: AccessToken, acl: seq<AclGrant>, right: Acl)
    ensures right in EffectiveGrants(token, acl) <==>
            exists i :: 0 <= i < |acl| && IsMember(token, acl[i].accountId) && right in acl[i].grants
    decreases |acl|
  {
    if acl != [] {
      var init := acl[..|acl| - 1];
      EffectiveGrantsExact(token, init, right);
      if right in EffectiveGrants(token, init) {
        var i :| 0 <= i < |init| && IsMember(token, init[i].accountId) && right in init[i].grants;
        assert acl[i] == init[i];
      }
      if exists i :: 0 <= i < |acl| && IsMember(token, acl[i].accountId) && right in acl[i].grants {
        var i :| 0 <= i < |acl| && IsMember(token, acl[i].accountId) && right in acl[i].grants;
        if i < |init| {
          assert init[i] == acl[i];
        }
      }
    }
  }

  /** The `acl` property of an object's properties, when it holds a grant list. */
  function AclOf(properties: map<Property, Value>): Option<seq<AclGrant>>
  {
    if AclProperty in properties && properties[AclProperty].AclValue? then Some(properties[AclProperty].acl) else None
  }

  /**
   * The guard of `acl_get`: the grant list is shown to members of the
   * owning account and to tokens holding Administer through some entry.
   */
  function AclVisible(acl: seq<AclGrant>, token: AccessToken, accountId: u32): (visible: bool)
    ensures IsMember(token, accountId) ==> visible
  {
    IsMember(token, accountId) ||
    exists i :: 0 <= i < |acl| && IsMember(token, acl[i].accountId) && ADMINISTER in acl[i].grants
  }

  /** The guard agrees with the effective rights: members of the account, or Administer among the effective rights. */
  lemma AclVisibleIffAdminister(acl: seq<AclGrant>, token: AccessToken, accountId: u32)
    ensures AclVisible(acl, token, accountId) <==> IsMember(token, accountId) || ADMINISTER in EffectiveGrants(token, acl)
  {
    EffectiveGrantsExact(token, acl, ADMINISTER);
  }

  // ---------------------------------------------------------------------
  // Changed principals

  /** An entry of one list invalidates its account against the other list's first entry for it. */
  predicate Invalidates(item: AclGrant, other: seq<AclGrant>)
  {
    match FindAccount(other, item.accountId)
    case None => true
    case Some(j) => other[j].grants != item.grants
  }

  /** The accounts of the entries of `items` that invalidate against `other`. */
  function FlaggedFrom(items: seq<AclGrant>, other: seq<AclGrant>): set<u32>
  {
    if items == [] then {}
    else
      var last := items[|items| - 1];
      FlaggedFrom(items[..|items| - 1], other) + if Invalidates(last, other) then {last.accountId} else {}
  }

  /** The accounts of a grant list. */
  function AccountsOf(acl: seq<AclGrant>): (r: set<u32>)
    ensures forall a :: a in r <==> exists i :: 0 <= i < |acl| && acl[i].accountId == a
  {
    set i | 0 <= i < |acl| :: acl[i].accountId
  }

  /**
   * The principals `refresh_acls` reports for a new grant list: against a
   * current list, those whose entries differ either way; without one,
   * every account of the new list.
   */
  function ChangedPrincipals(current: Option<seq<AclGrant>>, changes: seq<AclGrant>): set<u32>
  {
    match current
    case Some(previous) => FlaggedFrom(previous, changes) + FlaggedFrom(changes, previous)
    case None => AccountsOf(changes)
  }

  lemma {:induction false} FlaggedFromExact(items: seq<AclGrant>, other: seq<AclGrant>, a: u32)
    ensures a in FlaggedFrom(items, other) <==>
            exists i :: 0 <= i < |items| && items[i].accountId == a && Invalidates(items[i], other)
    decreases |items|
  {
    if items != [] {
      var init := items[..|items| - 1];
      FlaggedFromExact(init, other, a);
      if a in FlaggedFrom(init, other) {
        var i :| 0 <= i < |init| && init[i].accountId == a && Invalidates(init[i], other);
        assert items[i] == init[i];
      }
      if exists i :: 0 <= i < |items| && items[i].accountId == a && Invalidates(items[i], other) {
        var i :| 0 <= i < |items| && items[i].accountId == a && Invalidates(items[i], other);
        if i < |init| {
          assert init[i] == items[i];
        }
      }
    }
  }

  /** An account whose first entries differ between the lists (or that is in one list only) is reported. */
  lemma FirstGrantsDifferChanged(previous: seq<AclGrant>, changes: seq<AclGrant>, a: u32)
    requires FirstGrants(previous, a) != FirstGrants(changes, a)
    ensures a in ChangedPrincipals(Some(previous), changes)
  {
    var i := FindAccount(previous, a);
    var j := FindAccount(changes, a);
    if i.Some? {
      assert Invalidates(previous[i.value], changes);
      FlaggedFromExact(previous, changes, a);
    } else {
      assert Invalidates(changes[j.value], previous);
      FlaggedFromExact(changes, previous, a);
    }
  }

  /**
   * With one entry per account in each list, an account is reported
   * exactly when it is in one list only or its grants differ.
   */
  lemma ChangedIffFirstGrantsDiffer(previous: seq<AclGrant>, changes: seq<AclGrant>, a: u32)
    requires AccountsUnique(previous) && AccountsUnique(changes)
    ensures a in ChangedPrincipals(Some(previous), changes) <==> FirstGrants(previous, a) != FirstGrants(changes, a)
  {
    if FirstGrants(previous, a) != FirstGrants(changes, a) {
      FirstGrantsDifferChanged(previous, changes, a);
    } else {
      FlaggedFromExact(previous, changes, a);
      FlaggedFromExact(changes, previous, a);
      forall i | 0 <= i < |previous| && previous[i].accountId == a ensures !Invalidates(previous[i], changes) {
        assert FindAccount(previous, a) == Some(i);
      }
      forall i | 0 <= i < |changes| && changes[i].accountId == a ensures !Invalidates(changes[i], previous) {
        assert FindAccount(changes, a) == Some(i);
      }
    }
  }

  /** Saving an unchanged grant list (one entry per account) reports nobody. */
  lemma UnchangedAclReportsNobody(acl: seq<AclGrant>)
    requires AccountsUnique(acl)
    ensures ChangedPrincipals(Some(acl), acl) == {}
  {
    forall a | a in ChangedPrincipals(Some(acl), acl) ensures false {
      ChangedIffFirstGrantsDiffer(acl, acl, a);
    }
  }
}
