/**
 * One node's local cache: its map from key to entry, the bulk operations
 * over it, and the transaction buffer that holds TTL decisions until
 * commit.
 */
module Cache {
  import opened Wrappers
  import opened Expiry
  import opened Entries

  type Store = map<Key, Entry>

  predicate ValidStore(m: Store) {
    forall k :: k in m ==> Valid(m[k])
  }

  /** The slot a store holds for k. */
  function Lookup(m: Store, k: Key): (s: Option<Entry>)
    ensures s.Some? <==> k in m
    ensures s.Some? ==> s.value == m[k]
    ensures ValidStore(m) ==> ValidSlot(s)
  {
    if k in m then Some(m[k]) else None
  }

  /** Two stores with the same slot for every key are the same store. */
  lemma LookupExtensional(a: Store, b: Store)
    requires forall k :: Lookup(a, k) == Lookup(b, k)
    ensures a == b
  {
    assert a.Keys == b.Keys by {
      forall k ensures k in a <==> k in b {
        assert Lookup(a, k) == Lookup(b, k);
      }
    }
    forall k | k in a ensures a[k] == b[k] {
      assert Lookup(a, k) == Lookup(b, k);
    }
  }

  /** The store with k's slot replaced by s and every other slot kept. */
  function SetSlot(m: Store, k: Key, s: Option<Entry>): (r: Store)
    ensures Lookup(r, k) == s
    ensures forall j :: j != k ==> Lookup(r, j) == Lookup(m, j)
  {
    if s.Some? then m[k := s.value] else m - {k}
  }

  /** The keys that hold a value at time now. */
  function LiveKeys(m: Store, now: nat): (ks: set<Key>)
    ensures forall k :: k in ks <==> LiveSlot(Lookup(m, k), now)
  {
    set k | k in m && Live(m[k], now)
  }

  /** The values a read of keys at time now returns: one for each key that holds one. */
  function LiveValues(m: Store, keys: set<Key>, now: nat): (r: map<Key, Value>)
    requires ValidStore(m)
    ensures forall k :: k in r <==> k in keys && LiveSlot(Lookup(m, k), now)
    ensures forall k :: k in r ==> k in m && Some(r[k]) == m[k].value
  {
    map k | k in keys && k in m && Live(m[k], now) :: m[k].value.value
  }

  /** Adding one key to a read adds that key's value when it holds one. */
  lemma LiveValuesStep(m: Store, done: set<Key>, k: Key, now: nat)
    requires ValidStore(m)
    ensures LiveSlot(Lookup(m, k), now) ==> LiveValues(m, done + {k}, now) == LiveValues(m, done, now)[k := m[k].value.value]
    ensures !LiveSlot(Lookup(m, k), now) ==> LiveValues(m, done + {k}, now) == LiveValues(m, done, now)
  {
  }

  /** Some element of a non-empty set. */
  method Choose<T>(s: set<T>) returns (x: T)
    requires s != {}
    ensures x in s
  {
    x :| x in s;
  }

  /** What a bulk call does to one of its keys. */
  datatype BulkOp = PutOp(v: Value) | GetOp | RemoveOp

  function StepSlot(s: Option<Entry>, op: BulkOp, now: nat, p: Option<ExpiryPolicy>): (r: Option<Entry>)
    requires ValidSlot(s)
    ensures ValidSlot(r)
    ensures r.None? ==> s.None?
  {
    match op
    case PutOp(v) => PutSlot(s, v, now, p)
    case GetOp => GetSlot(s, now, p).slot
    case RemoveOp => RemoveSlot(s, now).slot
  }

  /** The slot k has after a bulk call whose keys and per-key operations are ops. */
  function BulkSlot(m: Store, ops: map<Key, BulkOp>, now: nat, p: Option<ExpiryPolicy>, k: Key): (s: Option<Entry>)
    requires ValidStore(m)
    ensures ValidSlot(s)
  {
    if k in ops then StepSlot(Lookup(m, k), ops[k], now, p) else Lookup(m, k)
  }

  /**
   * The store after a bulk call (putAll, getAll, removeAll): every key of
   * the call is handled on its own, all under the one policy p, and every
   * other key keeps its slot.
   */
  function BulkState(m: Store, ops: map<Key, BulkOp>, now: nat, p: Option<ExpiryPolicy>): (r: Store)
    requires ValidStore(m)
    ensures ValidStore(r)
    ensures forall k :: Lookup(r, k) == BulkSlot(m, ops, now, p, k)
  {
    var r := map k | k in m.Keys + ops.Keys && BulkSlot(m, ops, now, p, k).Some? :: BulkSlot(m, ops, now, p, k).value;
    assert forall k :: Lookup(r, k) == BulkSlot(m, ops, now, p, k) by {
      forall k ensures Lookup(r, k) == BulkSlot(m, ops, now, p, k) {
        if k !in m.Keys + ops.Keys {
          assert k !in ops && Lookup(m, k) == None;
        }
      }
    }
    r
  }

  /** The per-key operations of putAll(vals). */
  function PutAllOps(vals: map<Key, Value>): (ops: map<Key, BulkOp>)
    ensures ops.Keys == vals.Keys
    ensures forall k :: k in ops ==> ops[k] == PutOp(vals[k])
  {
    map k | k in vals :: PutOp(vals[k])
  }

  /** The per-key operations of a call that does op to each of keys. */
  function Uniform(keys: set<Key>, op: BulkOp): (ops: map<Key, BulkOp>)
    ensures ops.Keys == keys
    ensures forall k :: k in ops ==> ops[k] == op
  {
    map k | k in keys :: op
  }

  /** ops restricted to the keys in done. */
  function Restrict(ops: map<Key, BulkOp>, done: set<Key>): (r: map<Key, BulkOp>)
    ensures r.Keys == ops.Keys * done
    ensures forall k :: k in r ==> r[k] == ops[k]
  {
    map k | k in ops && k in done :: ops[k]
  }

  /** Handling one more key of a bulk call is writing that key's own outcome into the store
      the keys handled so far have produced. */
  lemma BulkStep(m: Store, ops: map<Key, BulkOp>, done: set<Key>, k: Key, now: nat, p: Option<ExpiryPolicy>)
    requires ValidStore(m) && k in ops && k !in done
    ensures Lookup(BulkState(m, Restrict(ops, done), now, p), k) == Lookup(m, k)
    ensures BulkState(m, Restrict(ops, done + {k}), now, p)
         == SetSlot(BulkState(m, Restrict(ops, done), now, p), k, StepSlot(Lookup(m, k), ops[k], now, p))
  {
    var before := BulkState(m, Restrict(ops, done), now, p);
    var after := BulkState(m, Restrict(ops, done + {k}), now, p);
    var stepped := SetSlot(before, k, StepSlot(Lookup(m, k), ops[k], now, p));
    assert Lookup(before, k) == BulkSlot(m, Restrict(ops, done), now, p, k) == Lookup(m, k);
    forall j ensures Lookup(after, j) == Lookup(stepped, j) {
      assert Lookup(after, j) == BulkSlot(m, Restrict(ops, done + {k}), now, p, j);
      if j != k {
        assert Lookup(before, j) == BulkSlot(m, Restrict(ops, done), now, p, j);
        assert (j in Restrict(ops, done + {k})) == (j in Restrict(ops, done));
      }
    }
    LookupExtensional(after, stepped);
  }

  /** putAll gives each of its keys the creation TTL when the key held no value and the
      update TTL when it did, and leaves every other key alone. */
  lemma PutAllTtls(m: Store, vals: map<Key, Value>, now: nat, p: Option<ExpiryPolicy>, k: Key)
    requires ValidStore(m)
    ensures k in vals ==> Lookup(BulkState(m, PutAllOps(vals), now, p), k) == PutSlot(Lookup(m, k), vals[k], now, p)
    ensures k !in vals ==> Lookup(BulkState(m, PutAllOps(vals), now, p), k) == Lookup(m, k)
    ensures forall t: nat :: k in vals && LiveSlot(Lookup(m, k), now) && DecisionFor(p, Update) == ExpireAfter(t)
              ==> BulkState(m, PutAllOps(vals), now, p)[k] == Entry(Some(vals[k]), t, now + t, false)
    ensures forall t: nat :: k in vals && !LiveSlot(Lookup(m, k), now) && DecisionFor(p, Create) == ExpireAfter(t)
              ==> BulkState(m, PutAllOps(vals), now, p)[k] == Entry(Some(vals[k]), t, now + t, false)
  {
    assert Lookup(BulkState(m, PutAllOps(vals), now, p), k) == BulkSlot(m, PutAllOps(vals), now, p, k);
  }

  /** getAll under one policy whose access rule is "t milliseconds" gives every key it read
      the same TTL t and expire time now + t, keeps their values and leaves every other key
      alone; it returns exactly the values the keys held. */
  lemma GetAllSameTtl(m: Store, keys: set<Key>, now: nat, p: Option<ExpiryPolicy>, t: nat)
    requires ValidStore(m) && DecisionFor(p, Access) == ExpireAfter(t)
    ensures forall k :: k in keys && LiveSlot(Lookup(m, k), now)
              ==> Lookup(BulkState(m, Uniform(keys, GetOp), now, p), k) == Some(Entry(m[k].value, t, now + t, false))
    ensures forall k :: k !in keys || !LiveSlot(Lookup(m, k), now)
              ==> Lookup(BulkState(m, Uniform(keys, GetOp), now, p), k) == Lookup(m, k)
    ensures LiveValues(m, keys, now).Keys == keys * LiveKeys(m, now)
  {
  }

  /** A read of exactly the keys of vals, on a store where each of them holds its value from
      vals, returns vals. */
  lemma ReadBack(m: Store, vals: map<Key, Value>, now: nat)
    requires ValidStore(m)
    requires forall k :: k in vals ==> LiveSlot(Lookup(m, k), now) && m[k].value == Some(vals[k])
    ensures LiveValues(m, vals.Keys, now) == vals
  {
    var r := LiveValues(m, vals.Keys, now);
    forall k ensures k in r <==> k in vals {
      if k in vals {
        assert LiveSlot(Lookup(m, k), now);
      }
    }
    forall k | k in r ensures r[k] == vals[k] {
      assert Some(r[k]) == m[k].value;
    }
  }

  /**
   * A node's local cache.  Reads and writes go through View(): the
   * committed entries overlaid with what the open transaction has staged.
   * A transaction keeps the TTL decisions of its operations in staged and
   * leaves entries alone until commit, which applies all of them at once;
   * a rollback drops them.  Each operation takes the override installed by
   * withExpiryPolicy, or None for the configured policy.
   */
  class CacheNode {
    /** The policy of the configured expiry policy factory; None when there is no factory. */
    const factory: Option<ExpiryPolicy>
    /** The committed entries. */
    var entries: Store
    /** Whether a transaction is open. */
    var inTx: bool
    /** The entries the open transaction has written or read, as they will be after commit. */
    var staged: Store
    /** The time of the latest operation: time never runs backwards on a node. */
    ghost var clock: nat

    ghost predicate Valid()
      reads this
    {
      ValidStore(entries) && ValidStore(staged) && (!inTx ==> staged == map[])
    }

    /** What operations see: committed entries overlaid with the transaction's. */
    function View(): Store
      reads this
    {
      entries + staged
    }

    /** Nothing committed changes while a transaction is open. */
    twostate predicate Kept()
      reads this
    {
      inTx == old(inTx) && (inTx ==> entries == old(entries))
    }

    constructor (factory: Option<ExpiryPolicy>)
      ensures Valid() && this.factory == factory
      ensures entries == map[] && !inTx && clock == 0
    {
      this.factory := factory;
      entries := map[];
      inTx := false;
      staged := map[];
      clock := 0;
    }

    lemma ViewIsValid()
      requires Valid()
      ensures ValidStore(View())
    {
    }

    /** Records slot s for k: in the transaction when one is open, otherwise in the entries. */
    method Write(k: Key, s: Option<Entry>)
      requires Valid() && ValidSlot(s) && (s.None? ==> k !in View())
      modifies this
      ensures Valid() && Kept() && clock == old(clock)
      ensures View() == SetSlot(old(View()), k, s)
    {
      if s.Some? {
        if inTx {
          staged := staged[k := s.value];
        } else {
          entries := entries[k := s.value];
        }
      }
      LookupExtensional(View(), SetSlot(old(View()), k, s));
    }

    /** put(k, v). */
    method Put(k: Key, v: Value, now: nat, override: Option<ExpiryPolicy>)
      requires Valid() && clock <= now
      modifies this
      ensures Valid() && Kept() && clock == now
      ensures View() == SetSlot(old(View()), k, PutSlot(Lookup(old(View()), k), v, now, EffectivePolicy(factory, override)))
    {
      ViewIsValid();
      Write(k, PutSlot(Lookup(View(), k), v, now, EffectivePolicy(factory, override)));
      clock := now;
    }

    /** get(k). */
    method Get(k: Key, now: nat, override: Option<ExpiryPolicy>) returns (r: Option<Value>)
      requires Valid() && clock <= now
      modifies this
      ensures Valid() && Kept() && clock == now
      ensures r == GetSlot(Lookup(old(View()), k), now, EffectivePolicy(factory, override)).reply
      ensures View() == SetSlot(old(View()), k, GetSlot(Lookup(old(View()), k), now, EffectivePolicy(factory, override)).slot)
    {
      ViewIsValid();
      var o := GetSlot(Lookup(View(), k), now, EffectivePolicy(factory, override));
      Write(k, o.slot);
      r := o.reply;
      clock := now;
    }

    /** invoke(k, processor) with a processor that only returns the entry's value: an access. */
    method InvokeGet(k: Key, now: nat, override: Option<ExpiryPolicy>) returns (r: Option<Value>)
      requires Valid() && clock <= now
      modifies this
      ensures Valid() && Kept() && clock == now
      ensures r == GetSlot(Lookup(old(View()), k), now, EffectivePolicy(factory, override)).reply
      ensures View() == SetSlot(old(View()), k, GetSlot(Lookup(old(View()), k), now, EffectivePolicy(factory, override)).slot)
    {
      r := Get(k, now, override);
    }

    /** remove(k). */
    method Remove(k: Key, now: nat) returns (removed: bool)
      requires Valid() && clock <= now
      modifies this
      ensures Valid() && Kept() && clock == now
      ensures removed == RemoveSlot(Lookup(old(View()), k), now).reply
      ensures View() == SetSlot(old(View()), k, RemoveSlot(Lookup(old(View()), k), now).slot)
    {
      ViewIsValid();
      var o := RemoveSlot(Lookup(View(), k), now);
      Write(k, o.slot);
      removed := o.reply;
      clock := now;
    }

    /** remove(k, v). */
    method RemoveIfEquals(k: Key, v: Value, now: nat, override: Option<ExpiryPolicy>) returns (removed: bool)
      requires Valid() && clock <= now
      modifies this
      ensures Valid() && Kept() && clock == now
      ensures removed == RemoveIfEqualsSlot(Lookup(old(View()), k), v, now, EffectivePolicy(factory, override)).reply
      ensures View() == SetSlot(old(View()), k, RemoveIfEqualsSlot(Lookup(old(View()), k), v, now, EffectivePolicy(factory, override)).slot)
    {
      ViewIsValid();
      var o := RemoveIfEqualsSlot(Lookup(View(), k), v, now, EffectivePolicy(factory, override));
      Write(k, o.slot);
      removed := o.reply;
      clock := now;
    }

    /** replace(k, expected, replacement). */
    method Replace(k: Key, expected: Value, replacement: Value, now: nat, override: Option<ExpiryPolicy>) returns (replaced: bool)
      requires Valid() && clock <= now
      modifies this
      ensures Valid() && Kept() && clock == now
      ensures replaced == ReplaceSlot(Lookup(old(View()), k), expected, replacement, now, EffectivePolicy(factory, override)).reply
      ensures View() == SetSlot(old(View()), k, ReplaceSlot(Lookup(old(View()), k), expected, replacement, now, EffectivePolicy(factory, override)).slot)
    {
      ViewIsValid();
      var o := ReplaceSlot(Lookup(View(), k), expected, replacement, now, EffectivePolicy(factory, override));
      Write(k, o.slot);
      replaced := o.reply;
      clock := now;
    }

    /** next() on a fresh iterator: None when hasNext() is false, else one key that holds a
        value, with that value, read as an access. */
    method IteratorNext(now: nat, override: Option<ExpiryPolicy>) returns (r: Option<(Key, Value)>)
      requires Valid() && clock <= now
      modifies this
      ensures Valid() && Kept() && clock == now
      ensures r.None? <==> LiveKeys(old(View()), now) == {}
      ensures r.None? ==> View() == old(View())
      ensures r.Some? ==> r.value.0 in LiveKeys(old(View()), now)
      ensures r.Some? ==> GetSlot(Lookup(old(View()), r.value.0), now, EffectivePolicy(factory, override)).reply == Some(r.value.1)
      ensures r.Some? ==> View() == SetSlot(old(View()), r.value.0, GetSlot(Lookup(old(View()), r.value.0), now, EffectivePolicy(factory, override)).slot)
    {
      ViewIsValid();
      var live := LiveKeys(View(), now);
      if live == {} {
        r := None;
        clock := now;
      } else {
        var k := Choose(live);
        var v := Get(k, now, override);
        r := Some((k, v.value));
      }
    }

    /** Handles key k of a bulk call whose keys in done are already handled: writes k's own
        outcome and adds k's value, if it held one, to what the call returns. */
    method BulkKey(ops: map<Key, BulkOp>, k: Key, now: nat, p: Option<ExpiryPolicy>,
                   ghost m0: Store, ghost done: set<Key>, found: map<Key, Value>)
      returns (found': map<Key, Value>)
      requires Valid() && ValidStore(m0) && k in ops && k !in done
      requires View() == BulkState(m0, Restrict(ops, done), now, p)
      requires found == LiveValues(m0, done, now)
      modifies this
      ensures Valid() && Kept() && clock == old(clock)
      ensures View() == BulkState(m0, Restrict(ops, done + {k}), now, p)
      ensures found' == LiveValues(m0, done + {k}, now)
    {
      BulkStep(m0, ops, done, k, now, p);
      LiveValuesStep(m0, done, k, now);
      ViewIsValid();
      var s := Lookup(View(), k);
      found' := if LiveSlot(s, now) then found[k := s.value.value.value] else found;
      Write(k, StepSlot(s, ops[k], now, p));
    }

    /** Handles the keys of a bulk call one at a time, all under one resolved policy, and
        returns the values the keys held before the call. */
    method ApplyBulk(ops: map<Key, BulkOp>, now: nat, override: Option<ExpiryPolicy>) returns (found: map<Key, Value>)
      requires Valid() && clock <= now
      modifies this
      ensures Valid() && Kept() && clock == now
      ensures View() == BulkState(old(View()), ops, now, EffectivePolicy(factory, override))
      ensures found == LiveValues(old(View()), ops.Keys, now)
    {
      ViewIsValid();
      var p := EffectivePolicy(factory, override);
      ghost var m0 := View();
      var todo := ops.Keys;
      ghost var done: set<Key> := {};
      found := map[];
      assert Restrict(ops, {}) == map[];
      LookupExtensional(BulkState(m0, map[], now, p), m0);
      while todo != {}
        invariant done + todo == ops.Keys && done !! todo
        invariant Valid() && Kept() && clock == old(clock)
        invariant View() == BulkState(m0, Restrict(ops, done), now, p)
        invariant found == LiveValues(m0, done, now)
        decreases todo
      {
        var k := Choose(todo);
        found := BulkKey(ops, k, now, p, m0, done, found);
        todo := todo - {k};
        done := done + {k};
      }
      assert Restrict(ops, done) == ops;
      clock := now;
    }

    /** putAll(vals). */
    method PutAll(vals: map<Key, Value>, now: nat, override: Option<ExpiryPolicy>)
      requires Valid() && clock <= now
      modifies this
      ensures Valid() && Kept() && clock == now
      ensures View() == BulkState(old(View()), PutAllOps(vals), now, EffectivePolicy(factory, override))
    {
      var _ := ApplyBulk(PutAllOps(vals), now, override);
    }

    /** getAll(keys). */
    method GetAll(keys: set<Key>, now: nat, override: Option<ExpiryPolicy>) returns (result: map<Key, Value>)
      requires Valid() && clock <= now
      modifies this
      ensures Valid() && Kept() && clock == now
      ensures result == LiveValues(old(View()), keys, now)
      ensures View() == BulkState(old(View()), Uniform(keys, GetOp), now, EffectivePolicy(factory, override))
    {
      result := ApplyBulk(Uniform(keys, GetOp), now, override);
    }

    /** removeAll(keys). */
    method RemoveAll(keys: set<Key>, now: nat)
      requires Valid() && clock <= now
      modifies this
      ensures Valid() && Kept() && clock == now
      ensures View() == BulkState(old(View()), Uniform(keys, RemoveOp), now, None)
    {
      var _ := ApplyBulk(Uniform(keys, RemoveOp), now, None);
    }

    /** A whole pass of an iterator: every key that holds a value is read once, as an access. */
    method IterateAll(now: nat, override: Option<ExpiryPolicy>) returns (visited: map<Key, Value>)
      requires Valid() && clock <= now
      modifies this
      ensures Valid() && Kept() && clock == now
      ensures visited.Keys == LiveKeys(old(View()), now)
      ensures visited == LiveValues(old(View()), LiveKeys(old(View()), now), now)
      ensures View() == BulkState(old(View()), Uniform(LiveKeys(old(View()), now), GetOp), now, EffectivePolicy(factory, override))
    {
      ViewIsValid();
      visited := GetAll(LiveKeys(View(), now), now, override);
    }

    /** txStart(): opens a transaction where none is open. */
    method TxStart()
      requires Valid() && !inTx
      modifies this
      ensures Valid() && inTx
      ensures entries == old(entries) && staged == old(staged) && clock == old(clock)
    {
      inTx := true;
    }

    /** commit(): every staged decision becomes durable at once. */
    method Commit()
      requires Valid() && inTx
      modifies this
      ensures Valid() && !inTx
      ensures entries == old(View()) && staged == map[] && clock == old(clock)
    {
      entries := entries + staged;
      staged := map[];
      inTx := false;
    }

    /** rollback(), and closing a transaction that was not committed: the staged decisions are dropped. */
    method Rollback()
      requires Valid() && inTx
      modifies this
      ensures Valid() && !inTx
      ensures entries == old(entries) && staged == map[] && clock == old(clock)
    {
      staged := map[];
      inTx := false;
    }
  }
}
