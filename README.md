# Expiry-policy TTL semantics of an Ignite cache, in Dafny

This project models what Ignite's expiry-policy test suite
(`IgniteCacheExpiryPolicyAbstractTest`) fixes about a cache entry's time to
live (TTL). An entry gets a new TTL when it is created, updated or accessed. A
per-call `withExpiryPolicy` override can decide that TTL instead of the
configured policy. Bulk calls and transactions apply the same rules. The
replicas of a key, and what `checkTtl` and `checkNoValue` then see on every
node, are modelled too.

Modules, one per file:

- `Wrappers` (wrappers.dfy): `Option`.
- `Expiry` (expiry.dfy):
  - JCache durations;
  - the three policies the tests configure (`TestPolicy`, `CreatedExpiryPolicy`, `EternalExpiryPolicy`) with their `getExpiryFor…` answers;
  - policy resolution with an override;
  - the TTL decision an answer leads to: keep, eternal, expire now, or expire after *n* ms.
- `Entries` (entries.dfy):
  - an entry: value, `ttl`, `expireTime`, `deleted`;
  - its invariant;
  - whether it holds a value at time `now`;
  - what put, get, remove, remove-if-equals and replace do to the one slot a node holds for a key.
- `TtlRules` (ttl_rules.dfy): the TTL rules the tests assert, as lemmas over those slot operations.
- `Cache` (cache.dfy):
  - a node's store (`map<Key, Entry>`);
  - the store a bulk call leaves behind (`BulkState`);
  - `class CacheNode`, whose methods change the store in place. An open transaction keeps its decisions in `staged`. Every operation reads and writes `View() = entries + staged`, commit makes `entries` the view, and rollback drops `staged`.
- `Checks` (checks.dfy):
  - the test's `checkTtl` and `checkNoValue` loops over the nodes of a grid, each node seen through the keys it is primary or backup for;
  - the polling condition of `waitExpired`;
  - the replication of one decided slot to every owner of the key.
- `Scenarios` (scenarios.dfy): test bodies replayed against one `CacheNode`, with their assertions proved. These are `zeroOnCreate`, `zeroOnUpdate`, `zeroOnAccess`, `eternal`, `access`, `filterAccessRemove`, `filterAccessReplace`, `txGet`, `createUpdateCustomPolicy`, `createUpdate`, `createUpdatePutAll` and `accessGetAll`.

Time is an explicit parameter `now` (milliseconds). A positive TTL `t` set at
`now` gives `expireTime = now + t`. An entry holds a value while it is not
deleted and either has no expire time or `now < expireTime`. Reads of an
expired entry see nothing, and writes treat its key as new.

Rules the model encodes, taken from the test's assertions and comments:

- A null answer leaves an existing TTL as it is. On create it gives TTL 0.
- With no factory, the cache acts as if the eternal policy were configured.
- A zero duration on create stores nothing.
- A zero duration on update or access removes the value. The access that triggers it still returns the value. The test asserts only that no value remains (lines 149-151 and 205-209); the model writes the removal as a tombstone (deleted, TTL 0), its own representation of a removed key.
- A remove leaves a tombstone, and the next put is a create.
- Time never runs backwards on a node: each `CacheNode` operation takes a `now` no earlier than that of the one before, and the node records it in a ghost `clock`.
- A failed `remove(k, v)` or `replace(k, old, new)` counts as an access.
- An override replaces the configured policy whole, for that call only.

## Model

| member | source | states |
|---|---|---|
| Expiry.TestPolicyDurations | modules/core/src/test/java/org/apache/ignite/internal/processors/cache/expiry/IgniteCacheExpiryPolicyAbstractTest.java:1121-1142 | TestPolicy takes its amounts in the order (create, update, access). The creation getter answers null when the first argument is null and otherwise that many milliseconds; the update getter does the same with the second argument, and the access getter with the third. No getter answers "eternal". |
| Expiry.CreatedPolicyAnswers | modules/core/src/test/java/org/apache/ignite/internal/processors/cache/expiry/IgniteCacheExpiryPolicyAbstractTest.java:99-100 | A created policy, such as the zero-duration factory of testZeroOnCreate, answers its duration for creation and null for update and access. |
| Expiry.ExpiryPolicy.ExpiryFor | modules/core/src/test/java/org/apache/ignite/internal/processors/cache/expiry/IgniteCacheExpiryPolicyAbstractTest.java:1121-1142 | A policy other than TestPolicy answers null for update and access. Only the eternal policy, or a created policy holding the eternal duration, ever answers "eternal". The answers of each policy per operation kind are stated by TestPolicyDurations, CreatedPolicyAnswers and EternalPolicyAnswers. |
| Expiry.EternalPolicyAnswers | modules/core/src/test/java/org/apache/ignite/internal/processors/cache/expiry/IgniteCacheExpiryPolicyAbstractTest.java:215-222 | The eternal policy answers "eternal" for creation and null for update and access. |
| Expiry.OverrideReplacesWhole | modules/core/src/test/java/org/apache/ignite/internal/processors/cache/expiry/IgniteCacheExpiryPolicyAbstractTest.java:664-673 | An override decides every operation kind by itself, also where it answers null and the configured policy does not. Without an override the configured policy decides. No factory is the same as the eternal policy. |
| Expiry.EffectivePolicy | modules/core/src/test/java/org/apache/ignite/internal/processors/cache/expiry/IgniteCacheExpiryPolicyAbstractTest.java:664-673 | An override, when a call has one, is that call's policy; without one the configured policy is. A call has no policy at all exactly when it has no override and the cache no factory. |
| Expiry.DurationFor | modules/core/src/test/java/org/apache/ignite/internal/processors/cache/expiry/IgniteCacheExpiryPolicyAbstractTest.java:236-237 | With no factory, creation gets "eternal" and update and access get null, as under the eternal policy. |
| Expiry.Decide | modules/core/src/test/java/org/apache/ignite/internal/processors/cache/expiry/IgniteCacheExpiryPolicyAbstractTest.java:644-696 | The decision for each answer, as an iff per case. Null leaves the TTL unchanged except on create, where it means TTL 0. Eternal means TTL 0. Zero means expire now. Any other amount becomes the new TTL. |
| Entries.Stamp | modules/core/src/test/java/org/apache/ignite/internal/processors/cache/expiry/IgniteCacheExpiryPolicyAbstractTest.java:1076-1086 | Every entry an operation writes keeps the invariant checkTtl relies on. The invariant: TTL 0 exactly when the expire time is 0, deleted exactly when there is no value, and a deleted entry has TTL 0. |
| Entries.Touched | modules/core/src/test/java/org/apache/ignite/internal/processors/cache/expiry/IgniteCacheExpiryPolicyAbstractTest.java:416-431 | The entry a read leaves behind still keeps the entry invariant. |
| Entries.PutSlot | modules/core/src/test/java/org/apache/ignite/internal/processors/cache/expiry/IgniteCacheExpiryPolicyAbstractTest.java:703-739 | put keeps the entry invariant. It never removes a slot the node had. Whenever the key holds a value afterwards, that value is the one put. |
| Entries.GetSlot | modules/core/src/test/java/org/apache/ignite/internal/processors/cache/expiry/IgniteCacheExpiryPolicyAbstractTest.java:416-431 | get returns a value exactly when the key holds one, and then returns that value. A key without a value is left as it was. |
| Entries.RemoveSlot | modules/core/src/test/java/org/apache/ignite/internal/processors/cache/expiry/IgniteCacheExpiryPolicyAbstractTest.java:741-749 | remove answers true exactly when the key held a value. Afterwards the key holds none. |
| Entries.RemoveIfEqualsSlot | modules/core/src/test/java/org/apache/ignite/internal/processors/cache/expiry/IgniteCacheExpiryPolicyAbstractTest.java:450-464 | remove(k, v) succeeds exactly when k holds v. A success leaves a tombstone, so k holds no value afterwards. A key that held no value is left as it was. |
| Entries.ReplaceSlot | modules/core/src/test/java/org/apache/ignite/internal/processors/cache/expiry/IgniteCacheExpiryPolicyAbstractTest.java:470-477 | replace(k, old, new) succeeds exactly when k holds old. A key that held no value is left as it was. |
| TtlRules.StaysAbsent | modules/core/src/test/java/org/apache/ignite/internal/processors/cache/expiry/IgniteCacheExpiryPolicyAbstractTest.java:966-989 | A key that holds no value at some time holds none at any later time. |
| TtlRules.ZeroOnCreate | modules/core/src/test/java/org/apache/ignite/internal/processors/cache/expiry/IgniteCacheExpiryPolicyAbstractTest.java:99-119 | A put under a zero creation duration leaves the slot unchanged, and a get at this time or later returns null. |
| TtlRules.ZeroOnUpdate | modules/core/src/test/java/org/apache/ignite/internal/processors/cache/expiry/IgniteCacheExpiryPolicyAbstractTest.java:126-152 | A put under a zero update duration on a key with a value removes the value, and a later get returns null. The test asserts only that no value remains; the tombstone is the model's representation of the removal. |
| TtlRules.ZeroOnAccess | modules/core/src/test/java/org/apache/ignite/internal/processors/cache/expiry/IgniteCacheExpiryPolicyAbstractTest.java:157-210 | A get under a zero access duration returns the value, and removes it. The test asserts only that no value remains; the tombstone is the model's representation of the removal. |
| TtlRules.EternalPolicyKeepsTtlZero | modules/core/src/test/java/org/apache/ignite/internal/processors/cache/expiry/IgniteCacheExpiryPolicyAbstractTest.java:215-265 | With no factory or the eternal policy, a put writes an eternal entry (TTL 0, expire time 0), and a get leaves an eternal entry as it is. |
| TtlRules.NullUpdateKeepsTtl | modules/core/src/test/java/org/apache/ignite/internal/processors/cache/expiry/IgniteCacheExpiryPolicyAbstractTest.java:269-275 | A null update duration keeps the entry's TTL and expire time, and changes only the value. |
| TtlRules.NullAccessKeepsEntry | modules/core/src/test/java/org/apache/ignite/internal/processors/cache/expiry/IgniteCacheExpiryPolicyAbstractTest.java:656-663 | A null access duration leaves the entry exactly as it was. |
| TtlRules.NullCreateIsEternal | modules/core/src/test/java/org/apache/ignite/internal/processors/cache/expiry/IgniteCacheExpiryPolicyAbstractTest.java:687-695 | A null creation duration creates an entry with TTL 0 and no expire time. |
| TtlRules.PositiveDurationOverwrites | modules/core/src/test/java/org/apache/ignite/internal/processors/cache/expiry/IgniteCacheExpiryPolicyAbstractTest.java:269-279 | A positive duration n, on create, update or access, sets the TTL to n and the expire time to now + n, whatever the entry had before. |
| TtlRules.RemoveThenPutCreates | modules/core/src/test/java/org/apache/ignite/internal/processors/cache/expiry/IgniteCacheExpiryPolicyAbstractTest.java:703-750 | After a remove, the next put at any later time is a create, exactly as for a key the node never held. |
| TtlRules.FailedConditionalIsAccess | modules/core/src/test/java/org/apache/ignite/internal/processors/cache/expiry/IgniteCacheExpiryPolicyAbstractTest.java:450-484 | A remove(k, v) or replace(k, v, w) that fails answers false. It does to the entry exactly what a get does, and keeps the value unless the access duration is zero. |
| TtlRules.ReplaceIsUpdate | modules/core/src/test/java/org/apache/ignite/internal/processors/cache/expiry/IgniteCacheExpiryPolicyAbstractTest.java:470-477 | A replace that succeeds is a put of the new value, and the put takes the update rule. |
| TtlRules.LiveEntryExpireTime | modules/core/src/test/java/org/apache/ignite/internal/processors/cache/expiry/IgniteCacheExpiryPolicyAbstractTest.java:1083-1086 | An entry that holds a value has a future expire time when its TTL is positive, and expire time 0 when its TTL is 0. |
| Cache.Lookup | modules/core/src/test/java/org/apache/ignite/internal/processors/cache/expiry/IgniteCacheExpiryPolicyAbstractTest.java:1042-1045 | The slot a node holds for a key: present exactly when the store has the key. |
| Cache.LiveKeys | modules/core/src/test/java/org/apache/ignite/internal/processors/cache/expiry/IgniteCacheExpiryPolicyAbstractTest.java:178-184 | The keys an iterator visits are exactly the keys that hold a value at that time. |
| Cache.LiveValues | modules/core/src/test/java/org/apache/ignite/internal/processors/cache/expiry/IgniteCacheExpiryPolicyAbstractTest.java:504-506 | What a read of a key set returns: exactly the keys that hold a value, each with that value. |
| Cache.BulkState | modules/core/src/test/java/org/apache/ignite/internal/processors/cache/expiry/IgniteCacheExpiryPolicyAbstractTest.java:568-637 | The store after a bulk call: each key of the call gets its own single-key outcome under the one policy, and every other key keeps its slot. |
| Cache.BulkStep | modules/core/src/test/java/org/apache/ignite/internal/processors/cache/expiry/IgniteCacheExpiryPolicyAbstractTest.java:581-592 | Handling one more key of a bulk call is writing that key's own outcome into the store built so far. |
| Cache.PutAllTtls | modules/core/src/test/java/org/apache/ignite/internal/processors/cache/expiry/IgniteCacheExpiryPolicyAbstractTest.java:624-634 | putAll gives a key that held a value the update TTL, and a new or expired key the creation TTL, and leaves every other key alone. |
| Cache.GetAllSameTtl | modules/core/src/test/java/org/apache/ignite/internal/processors/cache/expiry/IgniteCacheExpiryPolicyAbstractTest.java:504-516 | getAll under one policy gives every key it read the same access TTL t and expire time now + t, and keeps their values. Other keys are left alone. It returns exactly the keys that held values. |
| Cache.ReadBack | modules/core/src/test/java/org/apache/ignite/internal/processors/cache/expiry/IgniteCacheExpiryPolicyAbstractTest.java:504-513 | A getAll of the keys of vals, on a store where each such key holds its value from vals, returns vals. |
| Cache.CacheNode.constructor | modules/core/src/test/java/org/apache/ignite/internal/processors/cache/expiry/IgniteCacheExpiryPolicyAbstractTest.java:82-94 | A node starts with no entries, no open transaction and its configured factory. |
| Cache.CacheNode.Write | modules/core/src/test/java/org/apache/ignite/internal/processors/cache/expiry/IgniteCacheExpiryPolicyAbstractTest.java:362-376 | A slot is written to staged while a transaction is open and to entries otherwise. In both cases the view changes at that key only. |
| Cache.CacheNode.Put | modules/core/src/test/java/org/apache/ignite/internal/processors/cache/expiry/IgniteCacheExpiryPolicyAbstractTest.java:703-739 | put leaves the view with the key's slot replaced by PutSlot under the effective policy, and the rest unchanged. Inside a transaction entries do not change. |
| Cache.CacheNode.Get | modules/core/src/test/java/org/apache/ignite/internal/processors/cache/expiry/IgniteCacheExpiryPolicyAbstractTest.java:416-431 | get returns GetSlot's reply, and leaves the view at that key as GetSlot leaves the slot. Inside a transaction entries do not change. |
| Cache.CacheNode.InvokeGet | modules/core/src/test/java/org/apache/ignite/internal/processors/cache/expiry/IgniteCacheExpiryPolicyAbstractTest.java:439-443 | invoke with an entry processor that only reads is a get. |
| Cache.CacheNode.Remove | modules/core/src/test/java/org/apache/ignite/internal/processors/cache/expiry/IgniteCacheExpiryPolicyAbstractTest.java:741-749 | remove as RemoveSlot, on the view. |
| Cache.CacheNode.RemoveIfEquals | modules/core/src/test/java/org/apache/ignite/internal/processors/cache/expiry/IgniteCacheExpiryPolicyAbstractTest.java:450-464 | remove(k, v) as RemoveIfEqualsSlot, on the view, under the effective policy. |
| Cache.CacheNode.Replace | modules/core/src/test/java/org/apache/ignite/internal/processors/cache/expiry/IgniteCacheExpiryPolicyAbstractTest.java:470-477 | replace(k, old, new) as ReplaceSlot, on the view, under the effective policy. |
| Cache.CacheNode.IteratorNext | modules/core/src/test/java/org/apache/ignite/internal/processors/cache/expiry/IgniteCacheExpiryPolicyAbstractTest.java:176-184 | One step of a fresh iterator. A None result stands for hasNext() answering false (lines 178 and 184), which happens exactly when no key holds a value; the model does not call a next() that would throw. Otherwise the step returns a key that holds a value, with that value, and the read is an access to that key only. |
| Cache.CacheNode.ApplyBulk | modules/core/src/test/java/org/apache/ignite/internal/processors/cache/expiry/IgniteCacheExpiryPolicyAbstractTest.java:568-637 | Handling a bulk call's keys one at a time, in any order, leaves the view at BulkState. The call returns the values the keys held before. |
| Cache.CacheNode.PutAll | modules/core/src/test/java/org/apache/ignite/internal/processors/cache/expiry/IgniteCacheExpiryPolicyAbstractTest.java:578-634 | putAll leaves the view at BulkState of the put operations. |
| Cache.CacheNode.GetAll | modules/core/src/test/java/org/apache/ignite/internal/processors/cache/expiry/IgniteCacheExpiryPolicyAbstractTest.java:504-516 | getAll returns exactly the keys that held values, with those values. It leaves the view at BulkState of the reads. |
| Cache.CacheNode.RemoveAll | modules/core/src/test/java/org/apache/ignite/internal/processors/cache/expiry/IgniteCacheExpiryPolicyAbstractTest.java:497-499 | removeAll leaves the view at BulkState of the removes. |
| Cache.CacheNode.IterateAll | modules/core/src/test/java/org/apache/ignite/internal/processors/cache/expiry/IgniteCacheExpiryPolicyAbstractTest.java:336-347 | A full iteration visits exactly the keys that hold a value, with their values, and reads each of them once as an access. |
| Cache.CacheNode.TxStart | modules/core/src/test/java/org/apache/ignite/internal/processors/cache/expiry/IgniteCacheExpiryPolicyAbstractTest.java:362-366 | txStart, called where no transaction is open, opens one and changes no entry. |
| Cache.CacheNode.Commit | modules/core/src/test/java/org/apache/ignite/internal/processors/cache/expiry/IgniteCacheExpiryPolicyAbstractTest.java:362-376 | commit makes every staged decision durable at once: the entries become the view as it stood before commit. |
| Cache.CacheNode.Rollback | modules/core/src/test/java/org/apache/ignite/internal/processors/cache/expiry/IgniteCacheExpiryPolicyAbstractTest.java:362-366 | A rollback drops every staged decision and leaves the entries unchanged. |
| Checks.CheckTtl | modules/core/src/test/java/org/apache/ignite/internal/processors/cache/expiry/IgniteCacheExpiryPolicyAbstractTest.java:1034-1090 | checkTtl passes exactly when every node passes and some node holds an entry. A node passes when: a tombstone has TTL 0 and sits only on a node that neither is primary nor backup; a node without an entry is neither primary nor backup; any other entry has the expected TTL, with an expire time exactly when that TTL is positive. |
| Checks.WaitExpiredConditionAsWritten | modules/core/src/test/java/org/apache/ignite/internal/processors/cache/expiry/IgniteCacheExpiryPolicyAbstractTest.java:966-985 | The polling condition as written answers false on every grid. |
| Checks.ExpiredGridExample | modules/core/src/test/java/org/apache/ignite/internal/processors/cache/expiry/IgniteCacheExpiryPolicyAbstractTest.java:966-985 | A grid where the key has expired on every node, so the condition ought to hold. |
| Checks.PeekNone | modules/core/src/test/java/org/apache/ignite/internal/processors/cache/expiry/IgniteCacheExpiryPolicyAbstractTest.java:992-1009 | true exactly when no node's localPeek finds a value for any of the keys. This is the corrected polling condition and the first loop of checkNoValue. |
| Checks.CheckNoValue | modules/core/src/test/java/org/apache/ignite/internal/processors/cache/expiry/IgniteCacheExpiryPolicyAbstractTest.java:992-1017 | checkNoValue passes exactly when no node holds a value for any key. Once the peek loop passes, the get loop cannot fail. |
| Checks.Replicate | modules/core/src/test/java/org/apache/ignite/internal/processors/cache/expiry/IgniteCacheExpiryPolicyAbstractTest.java:1034-1090 | The slot the primary decided is copied unchanged to every node that is primary or backup for the key. Other nodes keep what they had. |
| Checks.ReplicatedEntryPassesCheckTtl | modules/core/src/test/java/org/apache/ignite/internal/processors/cache/expiry/IgniteCacheExpiryPolicyAbstractTest.java:1034-1090 | Once an entry is replicated, checkTtl with that entry's TTL passes, provided some node owns the key and no other node holds a copy. |
| Checks.ReplicatedRemovalPassesCheckNoValue | modules/core/src/test/java/org/apache/ignite/internal/processors/cache/expiry/IgniteCacheExpiryPolicyAbstractTest.java:992-1017 | Once a slot without a value is replicated, and no other node holds a copy, checkNoValue passes. |
| Scenarios.ZeroOnCreate | modules/core/src/test/java/org/apache/ignite/internal/processors/cache/expiry/IgniteCacheExpiryPolicyAbstractTest.java:115-121 | After a put under a zero creation duration the node holds nothing. checkNoValue passes and a get returns null. |
| Scenarios.ZeroOnUpdate | modules/core/src/test/java/org/apache/ignite/internal/processors/cache/expiry/IgniteCacheExpiryPolicyAbstractTest.java:142-152 | The get after the create returns 1. The update under a zero update duration removes the value (the node ends with a tombstone), and checkNoValue passes. |
| Scenarios.ZeroOnAccess | modules/core/src/test/java/org/apache/ignite/internal/processors/cache/expiry/IgniteCacheExpiryPolicyAbstractTest.java:200-210 | After zeroOnAccess's put and get, the key holds a tombstone and an iterator finds nothing. |
| Scenarios.ZeroOnAccessAfterOverride | modules/core/src/test/java/org/apache/ignite/internal/processors/cache/expiry/IgniteCacheExpiryPolicyAbstractTest.java:172-178 | The same after a create under a 60 s override. |
| Scenarios.ZeroOnAccessByIterator | modules/core/src/test/java/org/apache/ignite/internal/processors/cache/expiry/IgniteCacheExpiryPolicyAbstractTest.java:180-184 | An iterator step is the access: it returns the entry, and a second step finds nothing. |
| Scenarios.ZeroOnAccessTest | modules/core/src/test/java/org/apache/ignite/internal/processors/cache/expiry/IgniteCacheExpiryPolicyAbstractTest.java:157-210 | The phases of zeroOnAccess in order, ending with a tombstone for the key. |
| Scenarios.Eternal | modules/core/src/test/java/org/apache/ignite/internal/processors/cache/expiry/IgniteCacheExpiryPolicyAbstractTest.java:252-267 | With no factory or the eternal policy, TTL stays 0 through create, get and update, and remove succeeds. |
| Scenarios.EternalCustomCreate | modules/core/src/test/java/org/apache/ignite/internal/processors/cache/expiry/IgniteCacheExpiryPolicyAbstractTest.java:269-275 | A create under an override gives 60 s, checkTtl passes with it, and a put without the override keeps it. |
| Scenarios.EternalCustomUpdate | modules/core/src/test/java/org/apache/ignite/internal/processors/cache/expiry/IgniteCacheExpiryPolicyAbstractTest.java:276-281 | An update under an override of TTL_FOR_EXPIRE gives TTL 500 and expire time 506, at which time the key holds no value. |
| Scenarios.EternalTest | modules/core/src/test/java/org/apache/ignite/internal/processors/cache/expiry/IgniteCacheExpiryPolicyAbstractTest.java:252-282 | The phases of eternal in order, ending with the expired custom update. |
| Scenarios.Access | modules/core/src/test/java/org/apache/ignite/internal/processors/cache/expiry/IgniteCacheExpiryPolicyAbstractTest.java:416-431 | Create gives 60 s and get gives 62 s. A get under an override gives TTL_FOR_EXPIRE. |
| Scenarios.AccessAfterExpiry | modules/core/src/test/java/org/apache/ignite/internal/processors/cache/expiry/IgniteCacheExpiryPolicyAbstractTest.java:432-443 | Once TTL_FOR_EXPIRE has passed, a put is a create again (60 s), and a reading invoke is an access (62 s). |
| Scenarios.AccessTest | modules/core/src/test/java/org/apache/ignite/internal/processors/cache/expiry/IgniteCacheExpiryPolicyAbstractTest.java:416-443 | The phases of access in order, ending with the 62 s the invoke gave. |
| Scenarios.FilterAccessRemove | modules/core/src/test/java/org/apache/ignite/internal/processors/cache/expiry/IgniteCacheExpiryPolicyAbstractTest.java:450-464 | Both failing remove(k, v) calls answer false. The first applies the default access TTL (62 s), the one under an override the override's 1000 ms. |
| Scenarios.FilterAccessReplace | modules/core/src/test/java/org/apache/ignite/internal/processors/cache/expiry/IgniteCacheExpiryPolicyAbstractTest.java:470-484 | The failing replace answers false and applies the default access TTL (62 s). The failing remove(k, v) under an override, which the source calls here, applies 1000 ms. |
| Scenarios.TxGet | modules/core/src/test/java/org/apache/ignite/internal/processors/cache/expiry/IgniteCacheExpiryPolicyAbstractTest.java:355-368 | A get inside a transaction leaves the TTL alone until commit, and commit applies 62 s. |
| Scenarios.TxGetOverride | modules/core/src/test/java/org/apache/ignite/internal/processors/cache/expiry/IgniteCacheExpiryPolicyAbstractTest.java:370-376 | The same under an override applies 1000 ms. |
| Scenarios.TxLastDecisionWins | modules/core/src/test/java/org/apache/ignite/internal/processors/cache/expiry/IgniteCacheExpiryPolicyAbstractTest.java:362-376 | A property of the staging design that goes beyond the test: the test reads a key once per transaction and never rolls back. Two reads in one transaction under two overrides make only the second TTL durable, and a rolled-back put changes nothing. |
| Scenarios.TxGetTest | modules/core/src/test/java/org/apache/ignite/internal/processors/cache/expiry/IgniteCacheExpiryPolicyAbstractTest.java:355-377 | The phases of txGet in order, then the transaction checks, ending with the 7000 ms decision. |
| Scenarios.StartTx | modules/core/src/test/java/org/apache/ignite/internal/processors/cache/expiry/IgniteCacheExpiryPolicyAbstractTest.java:757-759 | startTx opens a transaction exactly when a concurrency mode is given, and changes no entry. |
| Scenarios.EndTx | modules/core/src/test/java/org/apache/ignite/internal/processors/cache/expiry/IgniteCacheExpiryPolicyAbstractTest.java:654-655 | The optional commit: afterwards no transaction is open and the entries are the view. |
| Scenarios.PutIn | modules/core/src/test/java/org/apache/ignite/internal/processors/cache/expiry/IgniteCacheExpiryPolicyAbstractTest.java:650-655 | A put inside an optional transaction of its own leaves the entries as the put alone would. |
| Scenarios.PutAllIn | modules/core/src/test/java/org/apache/ignite/internal/processors/cache/expiry/IgniteCacheExpiryPolicyAbstractTest.java:578-613 | A putAll inside an optional transaction of its own leaves the entries as the putAll alone would. |
| Scenarios.CreateUpdateCustomPolicy | modules/core/src/test/java/org/apache/ignite/internal/processors/cache/expiry/IgniteCacheExpiryPolicyAbstractTest.java:644-673 | A create under an override gives its 10 s. A get under no access duration keeps it, and an update whose override answers null keeps it too. |
| Scenarios.CreateUpdateCustomPolicyExpire | modules/core/src/test/java/org/apache/ignite/internal/processors/cache/expiry/IgniteCacheExpiryPolicyAbstractTest.java:675-695 | An update under TTL_FOR_EXPIRE gives 500 ms. Once that has passed, a put under an override that answers null for creation creates an eternal entry (TTL 0). |
| Scenarios.CreateUpdateCustomPolicyTest | modules/core/src/test/java/org/apache/ignite/internal/processors/cache/expiry/IgniteCacheExpiryPolicyAbstractTest.java:644-696 | The phases of createUpdateCustomPolicy in order, with or without a transaction around each write, ending with the eternal entry. |
| Scenarios.CreateUpdateRound | modules/core/src/test/java/org/apache/ignite/internal/processors/cache/expiry/IgniteCacheExpiryPolicyAbstractTest.java:711-749 | One round of createUpdate: create 60 s, get, update 61 s, get, remove succeeds, and a get then finds nothing. |
| Scenarios.CreateUpdateTest | modules/core/src/test/java/org/apache/ignite/internal/processors/cache/expiry/IgniteCacheExpiryPolicyAbstractTest.java:703-750 | Three rounds of createUpdate, with or without a transaction around each write. Each round after a remove creates the key again, and the last ends with the key removed. |
| Scenarios.CreateUpdatePutAll | modules/core/src/test/java/org/apache/ignite/internal/processors/cache/expiry/IgniteCacheExpiryPolicyAbstractTest.java:578-587 | putAll on new keys, with or without a transaction, gives every key 60 s. |
| Scenarios.PutAllUpdate | modules/core/src/test/java/org/apache/ignite/internal/processors/cache/expiry/IgniteCacheExpiryPolicyAbstractTest.java:589-598 | A second putAll, with or without a transaction, gives every key 61 s. |
| Scenarios.PutAllOverride | modules/core/src/test/java/org/apache/ignite/internal/processors/cache/expiry/IgniteCacheExpiryPolicyAbstractTest.java:600-609 | putAll under an override, with or without a transaction, gives every key the override's 1000 ms. |
| Scenarios.PutAllAfterExpiry | modules/core/src/test/java/org/apache/ignite/internal/processors/cache/expiry/IgniteCacheExpiryPolicyAbstractTest.java:611-622 | Once those have passed, putAll, with or without a transaction, creates every key again with 60 s. |
| Scenarios.PutAllUpdateAndCreate | modules/core/src/test/java/org/apache/ignite/internal/processors/cache/expiry/IgniteCacheExpiryPolicyAbstractTest.java:624-634 | A putAll, outside any transaction as in the source, over the old keys plus one new key gives the old keys 61 s and the new key 60 s. |
| Scenarios.CreateUpdatePutAllTest | modules/core/src/test/java/org/apache/ignite/internal/processors/cache/expiry/IgniteCacheExpiryPolicyAbstractTest.java:568-637 | The phases of createUpdatePutAll in order, with or without a transaction, ending with the old keys at 61 s and the new key at 60 s. |
| Scenarios.PutAllDefault | modules/core/src/test/java/org/apache/ignite/internal/processors/cache/expiry/IgniteCacheExpiryPolicyAbstractTest.java:497-502 | putAll under the default policy gives every key 60 s. |
| Scenarios.AccessGetAll | modules/core/src/test/java/org/apache/ignite/internal/processors/cache/expiry/IgniteCacheExpiryPolicyAbstractTest.java:504-509 | getAll returns exactly the map put and gives every key 62 s. |
| Scenarios.AccessGetAllOverride | modules/core/src/test/java/org/apache/ignite/internal/processors/cache/expiry/IgniteCacheExpiryPolicyAbstractTest.java:511-516 | A getAll under an override gives every key the override's access TTL, 1000 ms. |
| Scenarios.AccessGetAllTest | modules/core/src/test/java/org/apache/ignite/internal/processors/cache/expiry/IgniteCacheExpiryPolicyAbstractTest.java:489-516 | The phases of accessGetAll in order, ending with every key at 1000 ms. |

## Left out

- Cluster start-up, key selection by affinity, and the grid internals behind `peekEx` are not modelled. A node is a store plus the set of keys it is primary or backup for (`Checks.NodeView`); which nodes own which key is an input.
- Near caches are not modelled, and the near-cache tests are disabled in the source.
- Real time and polling are not modelled. Time is the `now` parameter. `waitExpired` and `checkTtl`'s `wait` flag become a later `now` or are dropped, and the 3000 ms bounds are not modelled.
- The eager TTL sweeper and the `disableEagerTtl` switch are not modelled. The model removes nothing in the background: an entry past its expire time stays in the map and simply holds no value. So the zero-access rule, and every other rule here, holds with eager TTL enabled or disabled alike.
- The backing store (`storeMap`), read-through and serialisation are not modelled.
- Concurrency is not modelled: the two transaction concurrency modes (pessimistic, optimistic) and the isolation level behave the same in the model, and two-phase commit is outside it.
- Cache.CacheNode: the clock is ghost and only orders the calls on one node. Nothing relates the clocks of different nodes.
- Cache.CacheNode.Commit: an expire time staged in a transaction is computed from the `now` of the operation, not from the commit time.
- Durations are `nat`: a negative `Long` passed to `TestPolicy` is not modelled, and the model has no 64-bit overflow of `now + ttl`.
- Cache.CacheNode.IteratorNext: models `next()` on a fresh iterator only. A cursor over several steps is modelled as `IterateAll`.
- Scenarios: `txGetAll` (lines 383-410) and the iteration at the end of `testAccess` (lines 329-347) have no replay of their own. They are covered by `Cache.CacheNode.GetAll`, `Cache.CacheNode.Commit` and `Cache.CacheNode.IterateAll`, and each replay starts from a fresh node instead of calling `removeAll` first.
- GridProjectionForCachesOnDaemonNodeSelfTest.java is not part of this model: it is about daemon-node filtering and has no expiry logic.

## Findings

| source | as written | input that shows it | evidently intended | confidence | as-written member | corrected member |
|---|---|---|---|---|---|---|
| modules/core/src/test/java/org/apache/ignite/internal/processors/cache/expiry/IgniteCacheExpiryPolicyAbstractTest.java:966-985 | The polling predicate of `waitExpired` returns false when some node still holds a value, and false again when none does. So `waitForCondition` always runs its full 3000 ms and then gives up. `checkNoValue` afterwards decides the outcome alone. | Two nodes, key 7, an empty store and a store holding only a tombstone for 7, at time 1000: no value anywhere (`Checks.ExpiredGridExample`), yet the predicate answers false. | Return true when no node holds a value for any of the keys. | not executed | Checks.WaitExpiredConditionAsWritten | Checks.PeekNone |

Two smaller slips, with no effect on what the model proves:

- In `filterAccessReplace` (line 481), the step under the override calls `remove(key, 2)` rather than `replace`. So that step tests a failed remove a second time. `Scenarios.FilterAccessReplace` replays it as written.
- The Javadoc of the `TestPolicy` constructor (lines 1117-1119) lists the parameters as (create, access, update). The signature and the field assignments (lines 1121-1127) use (create, update, access), and the model follows the code.
