/**
 * The TTL rules the expiry tests pin down, stated about the single-key
 * operations of module Entries.
 */
module TtlRules {
  import opened Wrappers
  import opened Expiry
  import opened Entries

  /** A key without a value keeps having none as time goes on. */
  lemma StaysAbsent(s: Option<Entry>, now: nat, later: nat)
    requires !LiveSlot(s, now) && now <= later
    ensures !LiveSlot(s, later)
  {
  }

  /** Creation with a zero duration: the put leaves the slot as it was, so no value
      appears, and a read at this time or any later one returns null. */
  lemma ZeroOnCreate(s: Option<Entry>, v: Value, now: nat, later: nat, p: Option<ExpiryPolicy>, q: Option<ExpiryPolicy>)
    requires ValidSlot(s) && !LiveSlot(s, now) && now <= later
    requires DurationFor(p, Create) == Some(Millis(0))
    ensures PutSlot(s, v, now, p) == s
    ensures GetSlot(PutSlot(s, v, now, p), later, q).reply.None?
  {
    StaysAbsent(s, now, later);
  }

  /** Update with a zero duration: a put on a key that holds a value removes it. */
  lemma ZeroOnUpdate(s: Option<Entry>, v: Value, now: nat, later: nat, p: Option<ExpiryPolicy>, q: Option<ExpiryPolicy>)
    requires ValidSlot(s) && LiveSlot(s, now)
    requires DurationFor(p, Update) == Some(Millis(0))
    ensures PutSlot(s, v, now, p) == Some(Tombstone)
    ensures GetSlot(PutSlot(s, v, now, p), later, q).reply.None?
  {
  }

  /** Access with a zero duration: the read that triggers it still returns the value,
      and afterwards the key holds none. */
  lemma ZeroOnAccess(s: Option<Entry>, now: nat, p: Option<ExpiryPolicy>)
    requires ValidSlot(s) && LiveSlot(s, now)
    requires DurationFor(p, Access) == Some(Millis(0))
    ensures GetSlot(s, now, p).reply == s.value.value && GetSlot(s, now, p).reply.Some?
    ensures GetSlot(s, now, p).slot == Some(Tombstone)
  {
  }

  /** With no factory, or with the eternal policy, TTL stays 0 through create, get and
      update: every write yields an eternal entry, and a read of an eternal entry leaves
      it eternal. */
  lemma EternalPolicyKeepsTtlZero(s: Option<Entry>, v: Value, now: nat, p: Option<ExpiryPolicy>)
    requires p == None || p == Some(EternalExpiryPolicy)
    requires ValidSlot(s) && (LiveSlot(s, now) ==> s.value.ttl == 0)
    ensures PutSlot(s, v, now, p).Some?
    ensures PutSlot(s, v, now, p).value == Entry(Some(v), 0, 0, false)
    ensures LiveSlot(s, now) ==> GetSlot(s, now, p).slot == s
  {
  }

  /** A null update duration leaves the TTL and the expire time as they were; only the
      value changes. */
  lemma NullUpdateKeepsTtl(s: Option<Entry>, v: Value, now: nat, p: Option<ExpiryPolicy>)
    requires ValidSlot(s) && LiveSlot(s, now)
    requires DurationFor(p, Update) == None
    ensures PutSlot(s, v, now, p) == Some(Entry(Some(v), s.value.ttl, s.value.expireTime, false))
  {
  }

  /** A null access duration leaves the entry exactly as it was. */
  lemma NullAccessKeepsEntry(s: Option<Entry>, now: nat, p: Option<ExpiryPolicy>)
    requires ValidSlot(s) && LiveSlot(s, now)
    requires DurationFor(p, Access) == None
    ensures GetSlot(s, now, p).slot == s
  {
  }

  /** A null creation duration creates an eternal entry (TTL 0, no expire time). */
  lemma NullCreateIsEternal(s: Option<Entry>, v: Value, now: nat, p: Option<ExpiryPolicy>)
    requires ValidSlot(s) && !LiveSlot(s, now)
    requires DurationFor(p, Create) == None
    ensures PutSlot(s, v, now, p) == Some(Entry(Some(v), 0, 0, false))
  {
  }

  /** A positive duration sets the TTL to that amount and the expire time to now plus it,
      whatever the entry had before (an eternal entry becomes finite too): creation,
      update and access alike. */
  lemma PositiveDurationOverwrites(s: Option<Entry>, v: Value, now: nat, p: Option<ExpiryPolicy>, n: nat)
    requires ValidSlot(s) && n > 0
    ensures !LiveSlot(s, now) && DurationFor(p, Create) == Some(Millis(n))
            ==> PutSlot(s, v, now, p) == Some(Entry(Some(v), n, now + n, false))
    ensures LiveSlot(s, now) && DurationFor(p, Update) == Some(Millis(n))
            ==> PutSlot(s, v, now, p) == Some(Entry(Some(v), n, now + n, false))
    ensures LiveSlot(s, now) && DurationFor(p, Access) == Some(Millis(n))
            ==> GetSlot(s, now, p).slot == Some(Entry(s.value.value, n, now + n, false))
  {
  }

  /** After a remove the key is new again: the next put, at any later time, is a create,
      exactly as for a key the node never held. */
  lemma RemoveThenPutCreates(s: Option<Entry>, v: Value, now: nat, later: nat, p: Option<ExpiryPolicy>)
    requires ValidSlot(s) && LiveSlot(s, now) && now <= later
    ensures RemoveSlot(s, now).reply
    ensures DecisionFor(p, Create) != ExpireNow
            ==> PutSlot(RemoveSlot(s, now).slot, v, later, p) == PutSlot(None, v, later, p)
    ensures DecisionFor(p, Create) == ExpireNow
            ==> !LiveSlot(PutSlot(RemoveSlot(s, now).slot, v, later, p), later)
  {
  }

  /** A remove(k, v) or replace(k, v, w) that fails because the key holds another value
      changes no value and does to the entry exactly what a get does. */
  lemma FailedConditionalIsAccess(s: Option<Entry>, v: Value, w: Value, now: nat, p: Option<ExpiryPolicy>)
    requires ValidSlot(s) && LiveSlot(s, now) && s.value.value != Some(v)
    ensures !RemoveIfEqualsSlot(s, v, now, p).reply
    ensures RemoveIfEqualsSlot(s, v, now, p).slot == GetSlot(s, now, p).slot
    ensures !ReplaceSlot(s, v, w, now, p).reply
    ensures ReplaceSlot(s, v, w, now, p).slot == GetSlot(s, now, p).slot
    ensures DecisionFor(p, Access) != ExpireNow ==> GetSlot(s, now, p).slot.value.value == s.value.value
  {
  }

  /** A successful replace is an update of the key with the new value. */
  lemma ReplaceIsUpdate(s: Option<Entry>, v: Value, w: Value, now: nat, p: Option<ExpiryPolicy>)
    requires ValidSlot(s) && LiveSlot(s, now) && s.value.value == Some(v)
    ensures ReplaceSlot(s, v, w, now, p) == Outcome(true, PutSlot(s, w, now, p))
    ensures PutSlot(s, w, now, p) == Some(Stamp(s.value.ttl, s.value.expireTime, w, DecisionFor(p, Update), now))
  {
  }

  /** A live entry's expire time is zero exactly when it is eternal, and otherwise lies
      in the future. */
  lemma LiveEntryExpireTime(e: Entry, now: nat)
    requires Valid(e) && Live(e, now)
    ensures e.ttl > 0 ==> e.expireTime > now
    ensures e.ttl == 0 ==> e.expireTime == 0
  {
  }
}
