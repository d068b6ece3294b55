/**
 * The expiry metadata a node keeps for one key, and what each single-key
 * cache operation does to it.
 *
 * A "slot" is what a node's map holds for a key: None when the node has
 * no entry, Some(e) otherwise.  An entry whose expire time has passed, and
 * a deleted (tombstone) entry, hold no value: reads see nothing and writes
 * treat the key as new.
 */
module Entries {
  import opened Wrappers
  import opened Expiry

  type Key = int
  type Value = int

  /** A cache entry's value with its TTL (0 = eternal), its absolute expire time
      (0 = never) and its deleted flag. */
  datatype Entry = Entry(value: Option<Value>, ttl: nat, expireTime: nat, deleted: bool)

  /** What a removed entry is left as: no value, no TTL, no expire time. */
  const Tombstone: Entry := Entry(None, 0, 0, true)

  /** The entry invariant: a TTL goes with an expire time and no TTL with none, and a
      deleted entry has no value and TTL 0. */
  predicate Valid(e: Entry) {
    && (e.ttl == 0 <==> e.expireTime == 0)
    && (e.deleted <==> e.value.None?)
    && (e.deleted ==> e.ttl == 0)
  }

  predicate ValidSlot(s: Option<Entry>) {
    s.Some? ==> Valid(s.value)
  }

  /** Whether the entry holds a value at time now: it is not deleted and its expire
      time, if it has one, lies in the future. */
  predicate Live(e: Entry, now: nat) {
    !e.deleted && (e.expireTime == 0 || now < e.expireTime)
  }

  predicate LiveSlot(s: Option<Entry>, now: nat) {
    s.Some? && Live(s.value, now)
  }

  /** The entry that holds value v after decision d at time now, for an entry whose
      TTL state was (ttl, expireTime) before. */
  function Stamp(ttl: nat, expireTime: nat, v: Value, d: TtlDecision, now: nat): (e: Entry)
    requires ttl == 0 <==> expireTime == 0
    requires d.ExpireAfter? ==> d.ttl > 0
    ensures Valid(e)
  {
    match d
    case Unchanged => Entry(Some(v), ttl, expireTime, false)
    case NoExpiry => Entry(Some(v), 0, 0, false)
    case ExpireNow => Tombstone
    case ExpireAfter(t) => Entry(Some(v), t, now + t, false)
  }

  /** The entry a live entry becomes when it is read under policy p. */
  function Touched(e: Entry, now: nat, p: Option<ExpiryPolicy>): (r: Entry)
    requires Valid(e) && !e.deleted
    ensures Valid(r)
  {
    Stamp(e.ttl, e.expireTime, e.value.value, DecisionFor(p, Access), now)
  }

  /** A reply together with the slot an operation leaves behind. */
  datatype Outcome<R> = Outcome(reply: R, slot: Option<Entry>)

  /**
   * put(k, v): an update when the key holds a live entry, a create
   * otherwise.  A create that the policy expires at once leaves the slot as
   * it was, so no value appears.
   */
  function PutSlot(s: Option<Entry>, v: Value, now: nat, p: Option<ExpiryPolicy>): (r: Option<Entry>)
    requires ValidSlot(s)
    ensures ValidSlot(r)
    ensures r.None? ==> s.None?
    ensures LiveSlot(r, now) ==> r.value.value == Some(v)
  {
    if LiveSlot(s, now) then
      Some(Stamp(s.value.ttl, s.value.expireTime, v, DecisionFor(p, Update), now))
    else
      var d := DecisionFor(p, Create);
      if d == ExpireNow then s else Some(Stamp(0, 0, v, d, now))
  }

  /** get(k), and any read that counts as an access (an iterator step, an entry processor
      that only reads): the value when there is one, and the entry touched under the
      access rule. */
  function GetSlot(s: Option<Entry>, now: nat, p: Option<ExpiryPolicy>): (r: Outcome<Option<Value>>)
    requires ValidSlot(s)
    ensures ValidSlot(r.slot)
    ensures r.slot.None? ==> s.None?
    ensures r.reply.Some? <==> LiveSlot(s, now)
    ensures LiveSlot(s, now) ==> r.reply == s.value.value
    ensures !LiveSlot(s, now) ==> r.slot == s
  {
    if LiveSlot(s, now) then Outcome(s.value.value, Some(Touched(s.value, now, p)))
    else Outcome(None, s)
  }

  /** remove(k): true, and a tombstone left behind, exactly when the key held a value. */
  function RemoveSlot(s: Option<Entry>, now: nat): (r: Outcome<bool>)
    requires ValidSlot(s)
    ensures ValidSlot(r.slot)
    ensures r.slot.None? ==> s.None?
    ensures r.reply <==> LiveSlot(s, now)
    ensures !LiveSlot(r.slot, now)
  {
    if LiveSlot(s, now) then Outcome(true, Some(Tombstone)) else Outcome(false, s)
  }

  /** remove(k, v): removes only when the key holds v.  When it holds another value the
      removal fails and counts as an access. */
  function RemoveIfEqualsSlot(s: Option<Entry>, v: Value, now: nat, p: Option<ExpiryPolicy>): (r: Outcome<bool>)
    requires ValidSlot(s)
    ensures ValidSlot(r.slot)
    ensures r.slot.None? ==> s.None?
    ensures r.reply <==> LiveSlot(s, now) && s.value.value == Some(v)
    ensures r.reply ==> r.slot == Some(Tombstone) && !LiveSlot(r.slot, now)
    ensures !LiveSlot(s, now) ==> r.slot == s
  {
    if !LiveSlot(s, now) then Outcome(false, s)
    else if s.value.value == Some(v) then Outcome(true, Some(Tombstone))
    else Outcome(false, Some(Touched(s.value, now, p)))
  }

  /** replace(k, expected, replacement): writes replacement, as an update, only when the key holds expected.  When it
      holds another value the replace fails and counts as an access. */
  function ReplaceSlot(s: Option<Entry>, expected: Value, replacement: Value, now: nat, p: Option<ExpiryPolicy>): (r: Outcome<bool>)
    requires ValidSlot(s)
    ensures ValidSlot(r.slot)
    ensures r.slot.None? ==> s.None?
    ensures r.reply <==> LiveSlot(s, now) && s.value.value == Some(expected)
    ensures !LiveSlot(s, now) ==> r.slot == s
  {
    if !LiveSlot(s, now) then Outcome(false, s)
    else if s.value.value == Some(expected) then Outcome(true, PutSlot(s, replacement, now, p))
    else Outcome(false, Some(Touched(s.value, now, p)))
  }
}
