/** Key rotation in network/security/auth_middleware.rs: the background pass that replaces aged keys and
    simple tokens, and `rotate_api_key` for one user. New ids are parameters; the clock is in seconds. */
module KeyRotation {
  import opened Prelude
  import opened Decimal

  /** The text of an API key or simple token. */
  datatype Id = Id(text: string)

  datatype AuthType = Jwt | ApiKey | Simple

  datatype AuthInfo = AuthInfo(userId: string, name: Option<string>, role: Role, expiresAt: Option<nat>, ip: Option<Ip>,
                               tokenType: AuthType, metadata: Option<map<string, string>>,
                               additional: map<string, string>)

  /** What a key lets its holder do, and until when. */
  datatype Authority = Authority(userId: string, name: Option<string>, role: Role, expiresAt: Option<nat>, ip: Option<Ip>)

  ghost function AuthorityOf(info: AuthInfo): Authority {
    Authority(info.userId, info.name, info.role, info.expiresAt, info.ip)
  }

  /** Entries have the same authority exactly when they agree on user, name, role, expiry and address. */
  lemma AuthorityTells(a: AuthInfo, b: AuthInfo)
    ensures AuthorityOf(a) == AuthorityOf(b) <==>
            a.userId == b.userId && a.name == b.name && a.role == b.role && a.expiresAt == b.expiresAt && a.ip == b.ip
  {
  }

  function CreatedAt(info: AuthInfo): Option<nat> {
    if "created_at" in info.additional then ParseU64(info.additional["created_at"]) else None
  }

  /** `now.saturating_sub(created)`. */
  function Age(created: nat, now: nat): nat {
    if created <= now then now - created else 0
  }

  /** Older than `maxAge` as far as its own record tells; a key without a readable date is never aged. */
  predicate Aged(info: AuthInfo, now: nat, maxAge: nat) {
    CreatedAt(info).Some? && Age(CreatedAt(info).value, now) > maxAge
  }

  predicate ProvablyYoung(info: AuthInfo, now: nat, maxAge: nat) {
    CreatedAt(info).Some? && Age(CreatedAt(info).value, now) <= maxAge
  }

  /** The entry that replaces `info`; its metadata is not carried over. */
  function Renewed(info: AuthInfo, tokenType: AuthType, now: nat): AuthInfo {
    info.(tokenType := tokenType, metadata := None,
          additional := info.additional["rotated_from" := "aged"]["rotated_at" := ToDecimal(now)]["created_at" := ToDecimal(now)])
  }

  /** The entry says, in its own record, that it was created at `c`. */
  ghost predicate CreatedOn(info: AuthInfo, c: nat) {
    "created_at" in info.additional && ParseU64(info.additional["created_at"]) == Some(c)
  }

  /** Nothing that could be read as a date. */
  ghost predicate Undated(info: AuthInfo) {
    "created_at" in info.additional ==> ParseU64(info.additional["created_at"]) == None
  }

  /** The new entry is dated now, notes the rotation, and carries everything else of the old one but its metadata. */
  lemma RenewedCarries(info: AuthInfo, tokenType: AuthType, now: nat)
    requires now < WORD
    ensures var r := Renewed(info, tokenType, now);
            && CreatedOn(r, now)
            && "rotated_at" in r.additional && ParseU64(r.additional["rotated_at"]) == Some(now)
            && "rotated_from" in r.additional && r.additional["rotated_from"] == "aged"
            && (forall k :: k !in {"created_at", "rotated_at", "rotated_from"} ==>
                  (k in r.additional <==> k in info.additional)
                  && (k in info.additional ==> r.additional[k] == info.additional[k]))
            && r.userId == info.userId && r.name == info.name && r.role == info.role
            && r.expiresAt == info.expiresAt && r.ip == info.ip && r.tokenType == tokenType && r.metadata == None
  {
    ParseToDecimal(now);
  }

  lemma RenewedIsYoung(info: AuthInfo, tokenType: AuthType, now: nat, maxAge: nat)
    requires now < WORD
    ensures !Aged(Renewed(info, tokenType, now), now, maxAge)
    ensures AuthorityOf(Renewed(info, tokenType, now)) == AuthorityOf(info)
  {
    ParseToDecimal(now);
  }

  // ---------- The authority held by a table of keys ----------

  ghost function Holders(m: map<Id, AuthInfo>, a: Authority): set<Id> {
    set k | k in m && AuthorityOf(m[k]) == a
  }

  /** Both tables hold the same multiset of authorities. */
  ghost predicate SameAuthorities(m: map<Id, AuthInfo>, r: map<Id, AuthInfo>) {
    forall a :: |Holders(m, a)| == |Holders(r, a)|
  }

  lemma HoldersAfterReplace(m: map<Id, AuthInfo>, k: Id, newKey: Id, info: AuthInfo, r: map<Id, AuthInfo>, a: Authority)
    requires k in m && newKey !in m && AuthorityOf(info) == AuthorityOf(m[k]) && r == m[newKey := info] - {k}
    ensures Holders(r, a) == if a == AuthorityOf(info) then Holders(m, a) - {k} + {newKey} else Holders(m, a)
  {
    forall x ensures x in Holders(r, a) <==> if x == newKey then a == AuthorityOf(info) else x != k && x in Holders(m, a) {}
  }

  /** Replacing a key by a new one that carries the same authority. */
  lemma ReplaceKeepsAuthorities(m: map<Id, AuthInfo>, k: Id, newKey: Id, info: AuthInfo, r: map<Id, AuthInfo>)
    requires k in m && newKey !in m && AuthorityOf(info) == AuthorityOf(m[k]) && r == m[newKey := info] - {k}
    ensures SameAuthorities(m, r)
  {
    forall a ensures |Holders(m, a)| == |Holders(r, a)| {
      HoldersAfterReplace(m, k, newKey, info, r, a);
      if a == AuthorityOf(info) {
        assert k in Holders(m, a) && newKey !in Holders(m, a);
      }
    }
  }

  // ---------- The background pass ----------

  /** What a pass does with each entry, told from the dates: entries without a date or no older than `maxAge`
      are untouched, older ones are gone, and nothing in the new table is older than `maxAge`. */
  ghost predicate RotatedByDate(table: map<Id, AuthInfo>, r: map<Id, AuthInfo>, now: nat, maxAge: nat) {
    && (forall k :: k in table && Undated(table[k]) ==> k in r && r[k] == table[k])
    && (forall k, c: nat :: k in table && CreatedOn(table[k], c) && now <= c + maxAge ==> k in r && r[k] == table[k])
    && (forall k, c: nat :: k in table && CreatedOn(table[k], c) && now > c + maxAge ==> k !in r)
    && (forall k, c: nat :: k in r && CreatedOn(r[k], c) ==> now <= c + maxAge)
  }

  lemma AgedByDate(info: AuthInfo, now: nat, maxAge: nat)
    ensures Undated(info) ==> !Aged(info, now, maxAge)
    ensures forall c: nat :: CreatedOn(info, c) ==> (Aged(info, now, maxAge) <==> now > c + maxAge)
  {
  }

  lemma PassIsByDate(table: map<Id, AuthInfo>, r: map<Id, AuthInfo>, now: nat, maxAge: nat, ids: seq<Id>)
    requires forall k :: k in table && !Aged(table[k], now, maxAge) ==> k in r && r[k] == table[k]
    requires forall k :: k in r && k !in ids ==> k in table && !Aged(table[k], now, maxAge)
    requires forall k :: k in r ==> !Aged(r[k], now, maxAge)
    requires forall i :: 0 <= i < |ids| ==> ids[i] !in table
    ensures RotatedByDate(table, r, now, maxAge)
  {
    forall k | k in table ensures Undated(table[k]) ==> !Aged(table[k], now, maxAge) {
      AgedByDate(table[k], now, maxAge);
    }
    forall k, c: nat | k in table && CreatedOn(table[k], c) ensures Aged(table[k], now, maxAge) <==> now > c + maxAge {
      AgedByDate(table[k], now, maxAge);
    }
    forall k, c: nat | k in r && CreatedOn(r[k], c) ensures now <= c + maxAge {
      AgedByDate(r[k], now, maxAge);
    }
  }

  /** Enough new ids, all different and unused. */
  ghost predicate FreshIds(ids: seq<Id>, m: map<Id, AuthInfo>, needed: nat) {
    Distinct(ids) && |ids| >= needed && forall i :: 0 <= i < |ids| ==> ids[i] !in m
  }

  ghost function AgedKeys(m: map<Id, AuthInfo>, now: nat, maxAge: nat): set<Id> {
    set k | k in m && Aged(m[k], now, maxAge)
  }

  /** Every new entry is the renewal of an aged one. */
  ghost predicate Renewals(before: map<Id, AuthInfo>, m: map<Id, AuthInfo>, tokenType: AuthType, now: nat, maxAge: nat) {
    forall k :: k in m && k !in before ==> exists x :: x in AgedKeys(before, now, maxAge) && m[k] == Renewed(before[x], tokenType, now)
  }

  /** Where the pass over the `aged` keys stands: `rest` still to replace, the first `used` ids taken. */
  ghost predicate Rotating(before: map<Id, AuthInfo>, m: map<Id, AuthInfo>, aged: set<Id>, rest: set<Id>, ids: seq<Id>, used: nat) {
    && used <= |ids|
    && (forall k :: k in before && (k in rest || k !in aged) ==> k in m)
    && (forall k :: k in m && k !in before ==> k in ids[..used])
    && (forall k :: k in m && k in before ==> (k in rest || k !in aged) && m[k] == before[k])
  }

  lemma RotateOne(before: map<Id, AuthInfo>, m: map<Id, AuthInfo>, aged: set<Id>, rest: set<Id>, ids: seq<Id>, used: nat,
                  key: Id, info: AuthInfo, r: map<Id, AuthInfo>)
    requires Rotating(before, m, aged, rest, ids, used) && key in rest && rest <= aged
    requires used < |ids| && ids[used] !in before
    requires r == m[ids[used] := info] - {key}
    ensures Rotating(before, r, aged, rest - {key}, ids, used + 1)
  {
  }

  lemma RenewOne(before: map<Id, AuthInfo>, m: map<Id, AuthInfo>, tokenType: AuthType, now: nat, maxAge: nat,
                 key: Id, newKey: Id, r: map<Id, AuthInfo>)
    requires Renewals(before, m, tokenType, now, maxAge) && key in AgedKeys(before, now, maxAge)
    requires r == m[newKey := Renewed(before[key], tokenType, now)] - {key}
    ensures Renewals(before, r, tokenType, now, maxAge)
  {
  }

  lemma NoneAged(before: map<Id, AuthInfo>, m: map<Id, AuthInfo>, tokenType: AuthType, now: nat, maxAge: nat)
    requires Renewals(before, m, tokenType, now, maxAge) && now < WORD
    requires forall k :: k in m && k in before ==> k !in AgedKeys(before, now, maxAge) && m[k] == before[k]
    ensures forall k :: k in m ==> !Aged(m[k], now, maxAge)
  {
    forall k | k in m ensures !Aged(m[k], now, maxAge) {
      if k !in before {
        var x :| x in AgedKeys(before, now, maxAge) && m[k] == Renewed(before[x], tokenType, now);
        RenewedIsYoung(before[x], tokenType, now, maxAge);
      }
    }
  }

  /** `check_api_key_rotation_internal` and `check_simple_token_rotation_internal`, which differ only in
      the table and the type stamped on the new entries: authority is conserved, unaged entries are
      untouched, and no entry stays older than `maxAge`. */
  method RotateAged(table: map<Id, AuthInfo>, tokenType: AuthType, now: nat, maxAge: nat, ids: seq<Id>)
    returns (r: map<Id, AuthInfo>)
    requires now < WORD && FreshIds(ids, table, |AgedKeys(table, now, maxAge)|)
    ensures SameAuthorities(table, r)
    ensures forall k :: k in table && !Aged(table[k], now, maxAge) ==> k in r && r[k] == table[k]
    ensures forall k :: k in r && k !in ids ==> k in table && !Aged(table[k], now, maxAge)
    ensures forall k :: k in r ==> !Aged(r[k], now, maxAge)
    ensures Renewals(table, r, tokenType, now, maxAge)
    ensures RotatedByDate(table, r, now, maxAge)
  {
    r := table;
    var toRotate := map k | k in table && Aged(table[k], now, maxAge) :: table[k];
    var rest := toRotate.Keys;
    assert rest == AgedKeys(table, now, maxAge);
    var used := 0;
    while rest != {}
      invariant rest <= AgedKeys(table, now, maxAge) && 0 <= used
      invariant used + |rest| <= |ids|
      invariant Rotating(table, r, AgedKeys(table, now, maxAge), rest, ids, used) && SameAuthorities(table, r)
      invariant Renewals(table, r, tokenType, now, maxAge)
      decreases |rest|
    {
      var key :| key in rest;
      assert |rest - {key}| == |rest| - 1;
      ghost var m, info := r, Renewed(table[key], tokenType, now);
      RenewedIsYoung(table[key], tokenType, now, maxAge);
      assert ids[used] !in ids[..used];
      r := r[ids[used] := Renewed(toRotate[key], tokenType, now)];
      r := r - {key};
      RotateOne(table, m, AgedKeys(table, now, maxAge), rest, ids, used, key, info, r);
      ReplaceKeepsAuthorities(m, key, ids[used], info, r);
      RenewOne(table, m, tokenType, now, maxAge, key, ids[used], r);
      rest := rest - {key};
      used := used + 1;
    }
    NoneAged(table, r, tokenType, now, maxAge);
    PassIsByDate(table, r, now, maxAge, ids);
  }

  /** Which of the user's old keys stay, told from the dates: those no older than `maxAge`, if one is given. */
  ghost predicate RevokedByDate(before: map<Id, AuthInfo>, after: map<Id, AuthInfo>, userId: string, maxAge: Option<nat>, now: nat) {
    && (forall k :: k in before && before[k].userId != userId ==> k in after)
    && (forall k :: k in before && before[k].userId == userId && Undated(before[k]) ==> k !in after)
    && (forall k, c: nat :: k in before && before[k].userId == userId && CreatedOn(before[k], c) ==>
          (k in after <==> maxAge.Some? && now <= c + maxAge.value))
  }

  lemma RevocationIsByDate(before: map<Id, AuthInfo>, after: map<Id, AuthInfo>, userId: string, maxAge: Option<nat>, now: nat)
    requires forall k :: k in before ==>
               (k in after <==> before[k].userId != userId || (maxAge.Some? && ProvablyYoung(before[k], now, maxAge.value)))
    ensures RevokedByDate(before, after, userId, maxAge, now)
  {
  }

  /** The tables of `AuthService` that rotation works on. */
  class KeyTables {
    var apiKeys: map<Id, AuthInfo>
    var simpleTokens: map<Id, AuthInfo>

    method CheckApiKeyRotation(now: nat, maxAge: nat, ids: seq<Id>)
      requires now < WORD && FreshIds(ids, apiKeys, |AgedKeys(apiKeys, now, maxAge)|)
      modifies `apiKeys
      ensures SameAuthorities(old(apiKeys), apiKeys) && RotatedByDate(old(apiKeys), apiKeys, now, maxAge)
      ensures AgedKeys(apiKeys, now, maxAge) == {} && Renewals(old(apiKeys), apiKeys, ApiKey, now, maxAge)
      ensures forall k :: k in old(apiKeys) && !Aged(old(apiKeys)[k], now, maxAge) ==> k in apiKeys && apiKeys[k] == old(apiKeys)[k]
      ensures forall k :: k in apiKeys && k !in ids ==> k in old(apiKeys) && !Aged(old(apiKeys)[k], now, maxAge)
    {
      apiKeys := RotateAged(apiKeys, ApiKey, now, maxAge, ids);
    }

    method CheckSimpleTokenRotation(now: nat, maxAge: nat, ids: seq<Id>)
      requires now < WORD && FreshIds(ids, simpleTokens, |AgedKeys(simpleTokens, now, maxAge)|)
      modifies `simpleTokens
      ensures SameAuthorities(old(simpleTokens), simpleTokens) && RotatedByDate(old(simpleTokens), simpleTokens, now, maxAge)
      ensures AgedKeys(simpleTokens, now, maxAge) == {} && Renewals(old(simpleTokens), simpleTokens, Simple, now, maxAge)
      ensures forall k :: k in old(simpleTokens) && !Aged(old(simpleTokens)[k], now, maxAge) ==>
                k in simpleTokens && simpleTokens[k] == old(simpleTokens)[k]
      ensures forall k :: k in simpleTokens && k !in ids ==> k in old(simpleTokens) && !Aged(old(simpleTokens)[k], now, maxAge)
    {
      simpleTokens := RotateAged(simpleTokens, Simple, now, maxAge, ids);
    }

    /** The first part of `rotate_api_key`: the user's keys that are not provably within `maxAge`. */
    method KeysToRevoke(userId: string, maxAge: Option<nat>, now: nat) returns (toRevoke: set<Id>)
      ensures forall k :: k in toRevoke <==> k in apiKeys && Revocable(apiKeys[k], userId, maxAge, now)
    {
      toRevoke := {};
      var rest := apiKeys.Keys;
      while rest != {}
        invariant rest <= apiKeys.Keys
        invariant forall k :: k in toRevoke <==> k in apiKeys && k !in rest && Revocable(apiKeys[k], userId, maxAge, now)
        decreases |rest|
      {
        var key :| key in rest;
        var info := apiKeys[key];
        rest := rest - {key};
        if info.userId == userId {
          if maxAge.Some? && CreatedAt(info).Some? {
            if Age(CreatedAt(info).value, now) > maxAge.value {
              toRevoke := toRevoke + {key};
            }
            continue;
          }
          toRevoke := toRevoke + {key};
        }
      }
    }

    /** The user is left with exactly the new key and the keys provably within `maxAge`; without a
        `maxAge`, with the new key alone. Other users keep exactly what they had. */
    method RotateApiKey(userId: string, name: Option<string>, role: Role, maxAge: Option<nat>,
                        additional: map<string, string>, now: nat, newKey: Id)
      requires newKey !in apiKeys && now < WORD
      modifies `apiKeys
      ensures newKey in apiKeys && CreatedAt(apiKeys[newKey]) == Some(now)
      ensures apiKeys[newKey] ==
              AuthInfo(userId, name, role, None, None, ApiKey, None, additional["created_at" := ToDecimal(now)])
      ensures forall k :: k in apiKeys && k != newKey ==> k in old(apiKeys) && apiKeys[k] == old(apiKeys)[k]
      ensures forall k :: k in old(apiKeys) ==>
                (k in apiKeys <==> old(apiKeys)[k].userId != userId
                                   || (maxAge.Some? && ProvablyYoung(old(apiKeys)[k], now, maxAge.value)))
      ensures RevokedByDate(old(apiKeys), apiKeys, userId, maxAge, now)
    {
      ghost var before := apiKeys;
      var toRevoke := KeysToRevoke(userId, maxAge, now);
      apiKeys := apiKeys - toRevoke;
      var stamped := additional["created_at" := ToDecimal(now)];
      ParseToDecimal(now);
      apiKeys := apiKeys[newKey := AuthInfo(userId, name, role, None, None, ApiKey, None, stamped)];
      RevocationIsByDate(before, apiKeys, userId, maxAge, now);
    }
  }

  ghost predicate Revocable(info: AuthInfo, userId: string, maxAge: Option<nat>, now: nat) {
    info.userId == userId && !(maxAge.Some? && ProvablyYoung(info, now, maxAge.value))
  }
}
