/**
 * The expiry tests replayed against one CacheNode, with time passed
 * explicitly.  Each test body becomes a few phases; a phase starts and ends
 * at a state named outright (At), and its assertions are the test's
 * assertions, proved from the contracts of CacheNode alone.  A
 * "waitExpired" becomes a later `now` at which the entry's expire time has
 * passed.
 */
module Scenarios {
  import opened Wrappers
  import opened Expiry
  import opened Entries
  import opened Cache
  import opened Checks

  /** The default policy of the access tests: 60 s on create, 61 s on update, 62 s on access. */
  const Default: ExpiryPolicy := TestPolicy(Some(60_000), Some(61_000), Some(62_000))

  /** The factory policy of the create and update tests: no access duration. */
  const CreateUpdatePolicy: ExpiryPolicy := TestPolicy(Some(60_000), Some(61_000), None)

  /** TTL_FOR_EXPIRE. */
  const TtlForExpire: nat := 500

  /** The node has factory f, no open transaction and committed entries m, and its latest
      operation was at time t or earlier. */
  ghost predicate At(c: CacheNode, f: Option<ExpiryPolicy>, m: Store, t: nat)
    reads c
  {
    c.Valid() && !c.inTx && c.factory == f && c.entries == m && c.clock <= t
  }

  /** zeroOnCreate: a create with a zero duration leaves no value. */
  method ZeroOnCreate(key: Key) returns (c: CacheNode)
    ensures fresh(c) && At(c, Some(CreatedExpiryPolicy(Millis(0))), map[], 0)
  {
    c := new CacheNode(Some(CreatedExpiryPolicy(Millis(0))));
    c.Put(key, 1, 0, None);
    assert c.entries == map[];
    var ok := CheckNoValue([NodeView(c.entries, {key})], [key], 0);
    assert ok;
    var v := c.Get(key, 0, None);
    assert v == None;
  }

  /** zeroOnUpdate: a create, a get that sees the value, then an update with a zero duration
      that removes it. */
  method ZeroOnUpdate(key: Key) returns (c: CacheNode)
    ensures fresh(c) && At(c, Some(TestPolicy(None, Some(0), None)), map[key := Tombstone], 2)
  {
    c := new CacheNode(Some(TestPolicy(None, Some(0), None)));
    c.Put(key, 1, 0, None);
    assert c.entries == map[key := Entry(Some(1), 0, 0, false)];
    var v := c.Get(key, 1, None);
    assert v == Some(1);
    c.Put(key, 2, 2, None);
    assert c.entries == map[key := Tombstone];
    var ok := CheckNoValue([NodeView(c.entries, {key})], [key], 2);
    assert ok;
  }

  /** zeroOnAccess, default policy: the get that applies the zero access duration returns
      the value, and an iterator then finds nothing. */
  method ZeroOnAccess(key: Key) returns (c: CacheNode)
    ensures fresh(c) && At(c, Some(TestPolicy(None, None, Some(0))), map[key := Tombstone], 2)
  {
    c := new CacheNode(Some(TestPolicy(None, None, Some(0))));
    c.Put(key, 1, 0, None);
    assert c.entries == map[key := Entry(Some(1), 0, 0, false)];
    var v := c.Get(key, 1, None);
    assert v == Some(1);
    assert c.entries == map[key := Tombstone];
    var it := c.IteratorNext(2, None);
    assert LiveKeys(map[key := Tombstone], 2) == {};
    assert it == None;
  }

  /** zeroOnAccess, continued: after a create under an override the same happens. */
  method ZeroOnAccessAfterOverride(c: CacheNode, key: Key)
    requires At(c, Some(TestPolicy(None, None, Some(0))), map[key := Tombstone], 3)
    modifies c
    ensures At(c, Some(TestPolicy(None, None, Some(0))), map[key := Tombstone], 5)
  {
    c.Put(key, 1, 3, Some(TestPolicy(Some(60_000), Some(60_000), Some(60_000))));
    assert c.entries == map[key := Entry(Some(1), 60_000, 60_003, false)];
    var v := c.Get(key, 4, None);
    assert v == Some(1);
    assert c.entries == map[key := Tombstone];
    var it := c.IteratorNext(5, None);
    assert LiveKeys(map[key := Tombstone], 5) == {};
    assert it == None;
  }

  /** zeroOnAccess, continued: the iterator step is the access, so a second step finds
      nothing. */
  method ZeroOnAccessByIterator(c: CacheNode, key: Key)
    requires At(c, Some(TestPolicy(None, None, Some(0))), map[key := Tombstone], 6)
    modifies c
    ensures At(c, Some(TestPolicy(None, None, Some(0))), map[key := Tombstone], 8)
  {
    c.Put(key, 1, 6, Some(TestPolicy(Some(60_000), Some(60_000), Some(60_000))));
    assert c.entries == map[key := Entry(Some(1), 60_000, 60_006, false)];
    assert LiveKeys(c.View(), 7) == {key};
    var it := c.IteratorNext(7, None);
    assert it == Some((key, 1));
    assert c.entries == map[key := Tombstone];
    it := c.IteratorNext(8, None);
    assert LiveKeys(map[key := Tombstone], 8) == {};
    assert it == None;
  }

  /** The whole of zeroOnAccess. */
  method ZeroOnAccessTest(key: Key) returns (c: CacheNode)
    ensures fresh(c) && At(c, Some(TestPolicy(None, None, Some(0))), map[key := Tombstone], 8)
  {
    c := ZeroOnAccess(key);
    ZeroOnAccessAfterOverride(c, key);
    ZeroOnAccessByIterator(c, key);
  }

  /** eternal, run with no factory and with the eternal policy: TTL 0 through create, get
      and update. */
  method Eternal(key: Key, factory: Option<ExpiryPolicy>) returns (c: CacheNode)
    requires factory == None || factory == Some(EternalExpiryPolicy)
    ensures fresh(c) && At(c, factory, map[key := Tombstone], 3)
  {
    c := new CacheNode(factory);
    c.Put(key, 1, 0, None);
    assert c.entries == map[key := Entry(Some(1), 0, 0, false)];
    var v := c.Get(key, 1, None);
    assert v == Some(1) && c.entries == map[key := Entry(Some(1), 0, 0, false)];
    c.Put(key, 2, 2, None);
    assert c.entries == map[key := Entry(Some(2), 0, 0, false)];
    var removed := c.Remove(key, 3);
    assert removed && c.entries == map[key := Tombstone];
  }

  /** eternal, continued: a custom create gives 60 s, which an update under the eternal
      policy keeps. */
  method EternalCustomCreate(c: CacheNode, key: Key, factory: Option<ExpiryPolicy>)
    requires factory == None || factory == Some(EternalExpiryPolicy)
    requires At(c, factory, map[key := Tombstone], 4)
    modifies c
    ensures At(c, factory, map[key := Entry(Some(2), 60_000, 60_004, false)], 5)
  {
    c.Put(key, 1, 4, Some(TestPolicy(Some(60_000), None, None)));
    assert c.entries == map[key := Entry(Some(1), 60_000, 60_004, false)];
    assert HoldsEntry([NodeView(c.entries, {key})][0], key);
    var ok := CheckTtl([NodeView(c.entries, {key})], key, 60_000);
    assert ok;
    c.Put(key, 2, 5, None);
  }

  /** eternal, continued: a custom update gives TTL_FOR_EXPIRE, after which the entry
      expires. */
  method EternalCustomUpdate(c: CacheNode, key: Key, factory: Option<ExpiryPolicy>)
    requires factory == None || factory == Some(EternalExpiryPolicy)
    requires At(c, factory, map[key := Entry(Some(2), 60_000, 60_004, false)], 6)
    modifies c
    ensures At(c, factory, map[key := Entry(Some(1), TtlForExpire, 6 + TtlForExpire, false)], 6)
    ensures key !in LiveKeys(c.View(), 6 + TtlForExpire)
  {
    c.Put(key, 1, 6, Some(TestPolicy(None, Some(TtlForExpire), None)));
    assert c.entries == map[key := Entry(Some(1), TtlForExpire, 6 + TtlForExpire, false)];
    assert key !in LiveKeys(c.View(), 6 + TtlForExpire);
  }

  /** The whole of eternal. */
  method EternalTest(key: Key, factory: Option<ExpiryPolicy>) returns (c: CacheNode)
    requires factory == None || factory == Some(EternalExpiryPolicy)
    ensures fresh(c) && At(c, factory, map[key := Entry(Some(1), TtlForExpire, 6 + TtlForExpire, false)], 6)
    ensures key !in LiveKeys(c.View(), 6 + TtlForExpire)
  {
    c := Eternal(key, factory);
    EternalCustomCreate(c, key, factory);
    EternalCustomUpdate(c, key, factory);
  }

  /** access: create 60 s, get 62 s; a get under an override takes the override's access
      duration, after which the entry expires. */
  method Access(key: Key) returns (c: CacheNode)
    ensures fresh(c) && At(c, Some(Default), map[key := Entry(Some(1), TtlForExpire, 20 + TtlForExpire, false)], 20)
  {
    c := new CacheNode(Some(Default));
    c.Put(key, 1, 0, None);
    assert c.entries == map[key := Entry(Some(1), 60_000, 60_000, false)];
    var v := c.Get(key, 10, None);
    assert v == Some(1) && c.entries == map[key := Entry(Some(1), 62_000, 62_010, false)];
    v := c.Get(key, 20, Some(TestPolicy(Some(1_100), Some(1_200), Some(TtlForExpire))));
    assert v == Some(1);
  }

  /** access, continued: once expired a put is a create again, and a reading invoke is an
      access. */
  method AccessAfterExpiry(c: CacheNode, key: Key)
    requires At(c, Some(Default), map[key := Entry(Some(1), TtlForExpire, 20 + TtlForExpire, false)], 600)
    modifies c
    ensures At(c, Some(Default), map[key := Entry(Some(1), 62_000, 62_610, false)], 610)
  {
    assert key !in LiveKeys(c.View(), 20 + TtlForExpire);
    c.Put(key, 1, 600, None);
    assert c.entries == map[key := Entry(Some(1), 60_000, 60_600, false)];
    var v := c.InvokeGet(key, 610, None);
    assert v == Some(1) && c.entries == map[key := Entry(Some(1), 62_000, 62_610, false)];
  }

  /** The whole of access. */
  method AccessTest(key: Key) returns (c: CacheNode)
    ensures fresh(c) && At(c, Some(Default), map[key := Entry(Some(1), 62_000, 62_610, false)], 610)
  {
    c := Access(key);
    AccessAfterExpiry(c, key);
  }

  /** filterAccessRemove: a remove(k, v) that fails applies the access duration, of the
      default policy or of the override. */
  method FilterAccessRemove(key: Key) returns (c: CacheNode)
    ensures fresh(c) && At(c, Some(Default), map[key := Entry(Some(1), 1_000, 1_002, false)], 2)
  {
    c := new CacheNode(Some(Default));
    c.Put(key, 1, 0, None);
    assert c.entries == map[key := Entry(Some(1), 60_000, 60_000, false)];
    var done := c.RemoveIfEquals(key, 2, 1, None);
    assert !done && c.entries == map[key := Entry(Some(1), 62_000, 62_001, false)];
    done := c.RemoveIfEquals(key, 2, 2, Some(TestPolicy(Some(100), Some(200), Some(1_000))));
    assert !done && c.entries == map[key := Entry(Some(1), 1_000, 1_002, false)];
  }

  /** filterAccessReplace: a replace(k, old, new) that fails applies the default access
      duration.  The second step of the source calls remove(k, v) under the override, not
      replace, and is replayed as written. */
  method FilterAccessReplace(key: Key) returns (c: CacheNode)
    ensures fresh(c) && At(c, Some(Default), map[key := Entry(Some(1), 1_000, 1_002, false)], 2)
  {
    c := new CacheNode(Some(Default));
    c.Put(key, 1, 0, None);
    assert c.entries == map[key := Entry(Some(1), 60_000, 60_000, false)];
    var done := c.Replace(key, 2, 3, 1, None);
    assert !done && c.entries == map[key := Entry(Some(1), 62_000, 62_001, false)];
    done := c.RemoveIfEquals(key, 2, 2, Some(TestPolicy(Some(100), Some(200), Some(1_000))));
    assert !done && c.entries == map[key := Entry(Some(1), 1_000, 1_002, false)];
  }

  /** txGet: a get inside a transaction applies its access TTL at commit, and not before. */
  method TxGet(key: Key) returns (c: CacheNode)
    ensures fresh(c) && At(c, Some(Default), map[key := Entry(Some(1), 62_000, 62_001, false)], 1)
  {
    c := new CacheNode(Some(Default));
    c.Put(key, 1, 0, None);
    assert c.entries == map[key := Entry(Some(1), 60_000, 60_000, false)];
    c.TxStart();
    var v := c.Get(key, 1, None);
    assert v == Some(1);
    assert c.entries == map[key := Entry(Some(1), 60_000, 60_000, false)];
    c.Commit();
  }

  /** txGet, continued: the same under an override. */
  method TxGetOverride(c: CacheNode, key: Key)
    requires At(c, Some(Default), map[key := Entry(Some(1), 62_000, 62_001, false)], 2)
    modifies c
    ensures At(c, Some(Default), map[key := Entry(Some(1), 1_000, 1_002, false)], 2)
  {
    c.TxStart();
    var v := c.Get(key, 2, Some(TestPolicy(Some(100), Some(200), Some(1_000))));
    assert v == Some(1);
    assert c.entries == map[key := Entry(Some(1), 62_000, 62_001, false)];
    c.Commit();
  }

  /** A transaction that reads a key twice under two overrides makes only the second
      decision durable; a rollback makes none. */
  method TxLastDecisionWins(c: CacheNode, key: Key)
    requires At(c, Some(Default), map[key := Entry(Some(1), 1_000, 1_002, false)], 3)
    modifies c
    ensures At(c, Some(Default), map[key := Entry(Some(1), 7_000, 7_004, false)], 5)
  {
    c.TxStart();
    var v := c.Get(key, 3, Some(TestPolicy(None, None, Some(5_000))));
    v := c.Get(key, 4, Some(TestPolicy(None, None, Some(7_000))));
    assert c.entries == map[key := Entry(Some(1), 1_000, 1_002, false)];
    c.Commit();
    assert c.entries == map[key := Entry(Some(1), 7_000, 7_004, false)];
    c.TxStart();
    c.Put(key, 2, 5, None);
    c.Rollback();
  }

  /** The whole of txGet, and the two transaction checks after it. */
  method TxGetTest(key: Key) returns (c: CacheNode)
    ensures fresh(c) && At(c, Some(Default), map[key := Entry(Some(1), 7_000, 7_004, false)], 5)
  {
    c := TxGet(key);
    TxGetOverride(c, key);
    TxLastDecisionWins(c, key);
  }

  /** Opens a transaction when tx is set, the way startTx does. */
  method StartTx(c: CacheNode, tx: bool)
    requires c.Valid() && !c.inTx
    modifies c
    ensures c.Valid() && c.inTx == tx
    ensures c.entries == old(c.entries) && c.staged == map[] && c.clock == old(c.clock)
  {
    if tx {
      c.TxStart();
    }
  }

  /** Commits the transaction StartTx opened, if any. */
  method EndTx(c: CacheNode)
    requires c.Valid()
    modifies c
    ensures c.Valid() && !c.inTx
    ensures c.entries == old(c.View()) && c.clock == old(c.clock)
  {
    if c.inTx {
      c.Commit();
    }
  }

  /** put(k, v) on its own, or in a transaction of its own when tx is set. */
  method PutIn(c: CacheNode, tx: bool, key: Key, v: Value, now: nat, override: Option<ExpiryPolicy>)
    requires c.Valid() && !c.inTx && c.clock <= now
    modifies c
    ensures c.Valid() && !c.inTx && c.clock == now
    ensures c.entries == SetSlot(old(c.entries), key, PutSlot(Lookup(old(c.entries), key), v, now, EffectivePolicy(c.factory, override)))
  {
    StartTx(c, tx);
    c.Put(key, v, now, override);
    EndTx(c);
  }

  /** putAll(vals) on its own, or in a transaction of its own when tx is set. */
  method PutAllIn(c: CacheNode, tx: bool, vals: map<Key, Value>, now: nat, override: Option<ExpiryPolicy>)
    requires c.Valid() && !c.inTx && c.clock <= now
    modifies c
    ensures c.Valid() && !c.inTx && c.clock == now
    ensures c.entries == BulkState(old(c.entries), PutAllOps(vals), now, EffectivePolicy(c.factory, override))
  {
    StartTx(c, tx);
    c.PutAll(vals, now, override);
    EndTx(c);
  }

  /** createUpdateCustomPolicy: a create and an update under overrides, with or without a
      transaction around each write. */
  method CreateUpdateCustomPolicy(key: Key, tx: bool) returns (c: CacheNode)
    ensures fresh(c) && At(c, Some(CreateUpdatePolicy), map[key := Entry(Some(2), 10_000, 10_001, false)], 3)
  {
    c := new CacheNode(Some(CreateUpdatePolicy));
    var v := c.Get(key, 0, None);
    assert v == None;
    PutIn(c, tx, key, 1, 1, Some(TestPolicy(Some(10_000), Some(20_000), Some(30_000))));
    assert c.entries == map[key := Entry(Some(1), 10_000, 10_001, false)];
    v := c.Get(key, 2, None);
    assert v == Some(1) && c.entries == map[key := Entry(Some(1), 10_000, 10_001, false)];
    PutIn(c, tx, key, 2, 3, Some(TestPolicy(Some(20_000), None, None)));
  }

  /** createUpdateCustomPolicy, continued: an update under TTL_FOR_EXPIRE, and once that has
      passed a put under an override without a creation duration creates an eternal entry. */
  method CreateUpdateCustomPolicyExpire(c: CacheNode, key: Key, tx: bool)
    requires At(c, Some(CreateUpdatePolicy), map[key := Entry(Some(2), 10_000, 10_001, false)], 4)
    modifies c
    ensures At(c, Some(CreateUpdatePolicy), map[key := Entry(Some(1), 0, 0, false)], 4 + TtlForExpire)
  {
    PutIn(c, tx, key, 2, 4, Some(TestPolicy(None, Some(TtlForExpire), None)));
    assert c.entries == map[key := Entry(Some(2), TtlForExpire, 4 + TtlForExpire, false)];
    PutIn(c, tx, key, 1, 4 + TtlForExpire, Some(TestPolicy(None, Some(20_000), Some(30_000))));
    assert c.entries == map[key := Entry(Some(1), 0, 0, false)];
  }

  /** The whole of createUpdateCustomPolicy. */
  method CreateUpdateCustomPolicyTest(key: Key, tx: bool) returns (c: CacheNode)
    ensures fresh(c) && At(c, Some(CreateUpdatePolicy), map[key := Entry(Some(1), 0, 0, false)], 4 + TtlForExpire)
  {
    c := CreateUpdateCustomPolicy(key, tx);
    CreateUpdateCustomPolicyExpire(c, key, tx);
  }

  /** One round of createUpdate: create 60 s, update 61 s, remove, after which a get finds
      nothing. */
  method CreateUpdateRound(c: CacheNode, key: Key, tx: bool, now: nat)
    requires c.Valid() && !c.inTx && c.factory == Some(CreateUpdatePolicy) && c.clock <= now
    requires !LiveSlot(Lookup(c.entries, key), now)
    modifies c
    ensures c.Valid() && !c.inTx && c.factory == Some(CreateUpdatePolicy) && c.clock == now + 5
    ensures Lookup(c.entries, key) == Some(Tombstone)
  {
    PutIn(c, tx, key, 1, now, None);
    assert Lookup(c.entries, key) == Some(Entry(Some(1), 60_000, now + 60_000, false));
    var v := c.Get(key, now + 1, None);
    assert v == Some(1) && c.entries[key].ttl == 60_000;
    PutIn(c, tx, key, 2, now + 2, None);
    assert c.entries[key] == Entry(Some(2), 61_000, now + 61_002, false);
    v := c.Get(key, now + 3, None);
    assert v == Some(2) && c.entries[key] == Entry(Some(2), 61_000, now + 61_002, false);
    StartTx(c, tx);
    var removed := c.Remove(key, now + 4);
    EndTx(c);
    assert removed && Lookup(c.entries, key) == Some(Tombstone);
    v := c.Get(key, now + 5, None);
    assert v == None;
  }

  /** createUpdate: three rounds, so that a put after a remove is a create again. */
  method CreateUpdateTest(key: Key, tx: bool) returns (c: CacheNode)
    ensures fresh(c) && c.Valid() && !c.inTx && c.factory == Some(CreateUpdatePolicy)
    ensures Lookup(c.entries, key) == Some(Tombstone)
  {
    c := new CacheNode(Some(CreateUpdatePolicy));
    var round := 0;
    while round < 3
      invariant round <= 3
      invariant c.Valid() && !c.inTx && c.factory == Some(CreateUpdatePolicy) && fresh(c)
      invariant c.clock <= 10 * round
      invariant if round == 0 then Lookup(c.entries, key) == None else Lookup(c.entries, key) == Some(Tombstone)
    {
      CreateUpdateRound(c, key, tx, 10 * round);
      round := round + 1;
    }
  }

  /** createUpdatePutAll: putAll creates every key with 60 s. */
  method CreateUpdatePutAll(vals: map<Key, Value>, newKey: Key, tx: bool) returns (c: CacheNode)
    requires newKey !in vals
    ensures fresh(c) && c.Valid() && !c.inTx && c.factory == Some(CreateUpdatePolicy) && c.clock == 0
    ensures forall k :: k in vals ==> Lookup(c.entries, k) == Some(Entry(Some(vals[k]), 60_000, 60_000, false))
    ensures newKey !in c.entries
  {
    c := new CacheNode(Some(CreateUpdatePolicy));
    PutAllIn(c, tx, vals, 0, None);
    forall k | k in vals ensures Lookup(c.entries, k) == Some(Entry(Some(vals[k]), 60_000, 60_000, false)) {
      PutAllTtls(map[], vals, 0, Some(CreateUpdatePolicy), k);
    }
    PutAllTtls(map[], vals, 0, Some(CreateUpdatePolicy), newKey);
  }

  /** createUpdatePutAll, continued: a second putAll updates every key with 61 s. */
  method PutAllUpdate(c: CacheNode, vals: map<Key, Value>, newKey: Key, tx: bool)
    requires newKey !in vals
    requires c.Valid() && !c.inTx && c.factory == Some(CreateUpdatePolicy) && c.clock <= 1_000
    requires forall k :: k in vals ==> Lookup(c.entries, k) == Some(Entry(Some(vals[k]), 60_000, 60_000, false))
    requires newKey !in c.entries
    modifies c
    ensures c.Valid() && !c.inTx && c.factory == Some(CreateUpdatePolicy) && c.clock == 1_000
    ensures forall k :: k in vals ==> Lookup(c.entries, k) == Some(Entry(Some(vals[k]), 61_000, 62_000, false))
    ensures newKey !in c.entries
  {
    ghost var m := c.entries;
    PutAllIn(c, tx, vals, 1_000, None);
    forall k | k in vals ensures Lookup(c.entries, k) == Some(Entry(Some(vals[k]), 61_000, 62_000, false)) {
      PutAllTtls(m, vals, 1_000, Some(CreateUpdatePolicy), k);
    }
    PutAllTtls(m, vals, 1_000, Some(CreateUpdatePolicy), newKey);
  }

  /** createUpdatePutAll, continued: under an override the update gets the override's 1 s. */
  method PutAllOverride(c: CacheNode, vals: map<Key, Value>, newKey: Key, tx: bool)
    requires newKey !in vals
    requires c.Valid() && !c.inTx && c.factory == Some(CreateUpdatePolicy) && c.clock <= 2_000
    requires forall k :: k in vals ==> Lookup(c.entries, k) == Some(Entry(Some(vals[k]), 61_000, 62_000, false))
    requires newKey !in c.entries
    modifies c
    ensures c.Valid() && !c.inTx && c.factory == Some(CreateUpdatePolicy) && c.clock == 2_000
    ensures forall k :: k in vals ==> Lookup(c.entries, k) == Some(Entry(Some(vals[k]), 1_000, 3_000, false))
    ensures newKey !in c.entries
  {
    ghost var m := c.entries;
    var custom := Some(TestPolicy(None, Some(1_000), None));
    PutAllIn(c, tx, vals, 2_000, custom);
    forall k | k in vals ensures Lookup(c.entries, k) == Some(Entry(Some(vals[k]), 1_000, 3_000, false)) {
      PutAllTtls(m, vals, 2_000, custom, k);
    }
    PutAllTtls(m, vals, 2_000, custom, newKey);
  }

  /** createUpdatePutAll, continued: once the 1 s has passed, a putAll creates every key
      again with 60 s. */
  method PutAllAfterExpiry(c: CacheNode, vals: map<Key, Value>, newKey: Key, tx: bool)
    requires newKey !in vals
    requires c.Valid() && !c.inTx && c.factory == Some(CreateUpdatePolicy) && c.clock <= 3_000
    requires forall k :: k in vals ==> Lookup(c.entries, k) == Some(Entry(Some(vals[k]), 1_000, 3_000, false))
    requires newKey !in c.entries
    modifies c
    ensures c.Valid() && !c.inTx && c.factory == Some(CreateUpdatePolicy) && c.clock == 3_000
    ensures forall k :: k in vals ==> Lookup(c.entries, k) == Some(Entry(Some(vals[k]), 60_000, 63_000, false))
    ensures newKey !in c.entries
  {
    ghost var m := c.entries;
    PutAllIn(c, tx, vals, 3_000, None);
    forall k | k in vals ensures Lookup(c.entries, k) == Some(Entry(Some(vals[k]), 60_000, 63_000, false)) {
      PutAllTtls(m, vals, 3_000, Some(CreateUpdatePolicy), k);
    }
    PutAllTtls(m, vals, 3_000, Some(CreateUpdatePolicy), newKey);
  }

  /** createUpdatePutAll, continued: a putAll over the old keys and one new key updates the
      old ones with 61 s and creates the new one with 60 s. */
  method PutAllUpdateAndCreate(c: CacheNode, vals: map<Key, Value>, newKey: Key)
    requires newKey !in vals
    requires c.Valid() && !c.inTx && c.factory == Some(CreateUpdatePolicy) && c.clock <= 3_001
    requires forall k :: k in vals ==> Lookup(c.entries, k) == Some(Entry(Some(vals[k]), 60_000, 63_000, false))
    requires newKey !in c.entries
    modifies c
    ensures c.Valid() && !c.inTx && c.factory == Some(CreateUpdatePolicy) && c.clock == 3_001
    ensures forall k :: k in vals ==> Lookup(c.entries, k) == Some(Entry(Some(vals[k]), 61_000, 64_001, false))
    ensures Lookup(c.entries, newKey) == Some(Entry(Some(1), 60_000, 63_001, false))
  {
    ghost var m := c.entries;
    var newVals := vals[newKey := 1];
    c.PutAll(newVals, 3_001, None);
    forall k | k in vals ensures Lookup(c.entries, k) == Some(Entry(Some(vals[k]), 61_000, 64_001, false)) {
      PutAllTtls(m, newVals, 3_001, Some(CreateUpdatePolicy), k);
    }
    PutAllTtls(m, newVals, 3_001, Some(CreateUpdatePolicy), newKey);
    assert Lookup(c.entries, newKey) == Some(Entry(Some(1), 60_000, 63_001, false));
  }

  /** The whole of createUpdatePutAll. */
  method CreateUpdatePutAllTest(vals: map<Key, Value>, newKey: Key, tx: bool) returns (c: CacheNode)
    requires newKey !in vals
    ensures fresh(c) && c.Valid() && !c.inTx && c.factory == Some(CreateUpdatePolicy)
    ensures forall k :: k in vals ==> Lookup(c.entries, k) == Some(Entry(Some(vals[k]), 61_000, 64_001, false))
    ensures Lookup(c.entries, newKey) == Some(Entry(Some(1), 60_000, 63_001, false))
  {
    c := CreateUpdatePutAll(vals, newKey, tx);
    PutAllUpdate(c, vals, newKey, tx);
    PutAllOverride(c, vals, newKey, tx);
    PutAllAfterExpiry(c, vals, newKey, tx);
    PutAllUpdateAndCreate(c, vals, newKey);
  }

  /** accessGetAll, first step: a putAll under the default policy creates every key. */
  method PutAllDefault(vals: map<Key, Value>) returns (c: CacheNode)
    ensures fresh(c) && c.Valid() && !c.inTx && c.factory == Some(Default) && c.clock == 0
    ensures forall k :: k in vals ==> Lookup(c.entries, k) == Some(Entry(Some(vals[k]), 60_000, 60_000, false))
  {
    c := new CacheNode(Some(Default));
    c.PutAll(vals, 0, None);
    forall k | k in vals ensures Lookup(c.entries, k) == Some(Entry(Some(vals[k]), 60_000, 60_000, false)) {
      PutAllTtls(map[], vals, 0, Some(Default), k);
    }
  }

  /** accessGetAll: a getAll returns exactly the values put and gives every key the default
      access TTL. */
  method AccessGetAll(c: CacheNode, vals: map<Key, Value>)
    requires c.Valid() && !c.inTx && c.factory == Some(Default) && c.clock <= 1
    requires forall k :: k in vals ==> Lookup(c.entries, k) == Some(Entry(Some(vals[k]), 60_000, 60_000, false))
    modifies c
    ensures c.Valid() && !c.inTx && c.factory == Some(Default) && c.clock == 1
    ensures forall k :: k in vals ==> Lookup(c.entries, k) == Some(Entry(Some(vals[k]), 62_000, 62_001, false))
  {
    ghost var m := c.entries;
    ReadBack(m, vals, 1);
    var got := c.GetAll(vals.Keys, 1, None);
    assert got == vals;
    GetAllSameTtl(m, vals.Keys, 1, Some(Default), 62_000);
    forall k | k in vals ensures Lookup(c.entries, k) == Some(Entry(Some(vals[k]), 62_000, 62_001, false)) {
      assert LiveSlot(Lookup(m, k), 1);
    }
  }

  /** accessGetAll, continued: a getAll under an override gives every key the override's
      access TTL. */
  method AccessGetAllOverride(c: CacheNode, vals: map<Key, Value>)
    requires c.Valid() && !c.inTx && c.factory == Some(Default) && c.clock <= 2
    requires forall k :: k in vals ==> Lookup(c.entries, k) == Some(Entry(Some(vals[k]), 62_000, 62_001, false))
    modifies c
    ensures c.Valid() && !c.inTx && c.factory == Some(Default) && c.clock == 2
    ensures forall k :: k in vals ==> Lookup(c.entries, k) == Some(Entry(Some(vals[k]), 1_000, 1_002, false))
  {
    ghost var m := c.entries;
    var custom := Some(TestPolicy(Some(1_100), Some(1_200), Some(1_000)));
    ReadBack(m, vals, 2);
    var got := c.GetAll(vals.Keys, 2, custom);
    assert got == vals;
    GetAllSameTtl(m, vals.Keys, 2, custom, 1_000);
    forall k | k in vals ensures Lookup(c.entries, k) == Some(Entry(Some(vals[k]), 1_000, 1_002, false)) {
      assert LiveSlot(Lookup(m, k), 2);
    }
  }

  /** The whole of accessGetAll. */
  method AccessGetAllTest(vals: map<Key, Value>) returns (c: CacheNode)
    ensures fresh(c) && c.Valid() && !c.inTx && c.factory == Some(Default)
    ensures forall k :: k in vals ==> Lookup(c.entries, k) == Some(Entry(Some(vals[k]), 1_000, 1_002, false))
  {
    c := PutAllDefault(vals);
    AccessGetAll(c, vals);
    AccessGetAllOverride(c, vals);
  }
}
