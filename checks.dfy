/**
 * What the tests check across the nodes of the grid, and how a decision
 * taken on a key's primary reaches its backups.
 *
 * A node is seen through a NodeView: its entries as peekEx returns them
 * (expired entries included) and the set of keys the affinity function
 * makes it primary or backup for.
 */
module Checks {
  import opened Wrappers
  import opened Entries
  import opened Cache

  datatype NodeView = NodeView(entries: Store, owned: set<Key>)

  /** The node holds an entry for key that is not a tombstone. */
  predicate HoldsEntry(n: NodeView, key: Key) {
    key in n.entries && !n.entries[key].deleted
  }

  /**
   * What checkTtl asserts about one node: a tombstone has TTL 0 and may
   * only sit on a node that neither is primary nor backup for the key; a
   * node without an entry must not be primary or backup either; any other
   * entry has the expected TTL, and an expire time exactly when that TTL
   * is positive.
   */
  predicate NodeTtlOk(n: NodeView, key: Key, ttl: nat) {
    if key in n.entries && n.entries[key].deleted then
      n.entries[key].ttl == 0 && key !in n.owned
    else if key !in n.entries then
      key !in n.owned
    else
      n.entries[key].ttl == ttl && (if ttl > 0 then n.entries[key].expireTime > 0 else n.entries[key].expireTime == 0)
  }

  /** checkTtl passes: every node is as above and at least one holds an entry. */
  predicate TtlChecked(nodes: seq<NodeView>, key: Key, ttl: nat) {
    && (forall i :: 0 <= i < |nodes| ==> NodeTtlOk(nodes[i], key, ttl))
    && (exists i :: 0 <= i < |nodes| && HoldsEntry(nodes[i], key))
  }

  /** checkTtl(key, ttl): visits the nodes in turn, fails at the first node that breaks an
      assertion, and at the end fails when no node held an entry. */
  method CheckTtl(nodes: seq<NodeView>, key: Key, ttl: nat) returns (ok: bool)
    ensures ok <==> TtlChecked(nodes, key, ttl)
  {
    var found := false;
    var i := 0;
    while i < |nodes|
      invariant 0 <= i <= |nodes|
      invariant forall j :: 0 <= j < i ==> NodeTtlOk(nodes[j], key, ttl)
      invariant found <==> exists j :: 0 <= j < i && HoldsEntry(nodes[j], key)
    {
      var n := nodes[i];
      if key in n.entries && n.entries[key].deleted {
        if n.entries[key].ttl != 0 || key in n.owned {
          return false;
        }
      } else if key !in n.entries {
        if key in n.owned {
          return false;
        }
      } else {
        found := true;
        var e := n.entries[key];
        if e.ttl != ttl {
          return false;
        }
        if ttl > 0 && e.expireTime == 0 {
          return false;
        }
        if ttl == 0 && e.expireTime != 0 {
          return false;
        }
      }
      i := i + 1;
    }
    ok := found;
  }

  /** localPeek finds no value for any of keys on any node at time now. */
  predicate NoValueAnywhere(nodes: seq<NodeView>, keys: seq<Key>, now: nat) {
    forall i, j :: 0 <= i < |nodes| && 0 <= j < |keys| ==> !LiveSlot(Lookup(nodes[i].entries, keys[j]), now)
  }

  /**
   * The condition waitExpired polls as the source writes it: it looks at
   * every node and key and answers false as soon as a value is found, and
   * false as well when none is.  It can never hold.
   */
  method WaitExpiredConditionAsWritten(nodes: seq<NodeView>, keys: seq<Key>, now: nat) returns (r: bool)
    ensures !r
  {
    for i := 0 to |nodes| {
      for j := 0 to |keys| {
        if LiveSlot(Lookup(nodes[i].entries, keys[j]), now) {
          return false;
        }
      }
    }
    return false;
  }

  /** A grid in which every key has expired everywhere, so the poll should stop at once. */
  lemma ExpiredGridExample()
    ensures NoValueAnywhere([NodeView(map[], {}), NodeView(map[7 := Tombstone], {})], [7], 1000)
  {
  }

  /**
   * The condition waitExpired evidently means to poll, and the peek loop
   * of checkNoValue: true exactly when no node holds a value for any of
   * the keys.
   */
  method PeekNone(nodes: seq<NodeView>, keys: seq<Key>, now: nat) returns (r: bool)
    ensures r <==> NoValueAnywhere(nodes, keys, now)
  {
    var i := 0;
    while i < |nodes|
      invariant 0 <= i <= |nodes|
      invariant forall i', j :: 0 <= i' < i && 0 <= j < |keys| ==> !LiveSlot(Lookup(nodes[i'].entries, keys[j]), now)
    {
      var j := 0;
      while j < |keys|
        invariant 0 <= j <= |keys|
        invariant forall j' :: 0 <= j' < j ==> !LiveSlot(Lookup(nodes[i].entries, keys[j']), now)
      {
        if LiveSlot(Lookup(nodes[i].entries, keys[j]), now) {
          return false;
        }
        j := j + 1;
      }
      i := i + 1;
    }
    return true;
  }

  /**
   * checkNoValue(keys): no node's localPeek finds a value, and then (the
   * backing store cleared, so a read cannot load one) a get of each key on
   * each node returns null.
   */
  method CheckNoValue(nodes: seq<NodeView>, keys: seq<Key>, now: nat) returns (ok: bool)
    requires forall i :: 0 <= i < |nodes| ==> ValidStore(nodes[i].entries)
    ensures ok <==> NoValueAnywhere(nodes, keys, now)
    ensures ok ==> forall i, j :: 0 <= i < |nodes| && 0 <= j < |keys| ==>
      GetSlot(Lookup(nodes[i].entries, keys[j]), now, None).reply == None
  {
    ok := PeekNone(nodes, keys, now);
    if !ok {
      return;
    }
    for i := 0 to |nodes|
      invariant forall i', j :: 0 <= i' < i && 0 <= j < |keys| ==>
        GetSlot(Lookup(nodes[i'].entries, keys[j]), now, None).reply == None
    {
      for j := 0 to |keys|
        invariant forall j' :: 0 <= j' < j ==> GetSlot(Lookup(nodes[i].entries, keys[j']), now, None).reply == None
      {
        if GetSlot(Lookup(nodes[i].entries, keys[j]), now, None).reply.Some? {
          return false;
        }
      }
    }
  }

  /**
   * The slot the key's primary decided, written unchanged to every node
   * that is primary or backup for the key: the replicas receive the
   * (ttl, expireTime) pair itself and do not compute one of their own.
   * Other nodes keep what they had.
   */
  function Replicate(nodes: seq<NodeView>, key: Key, s: Option<Entry>): (r: seq<NodeView>)
    ensures |r| == |nodes|
    ensures forall i :: 0 <= i < |nodes| ==> r[i].owned == nodes[i].owned
    ensures forall i :: 0 <= i < |nodes| && key in nodes[i].owned ==> Lookup(r[i].entries, key) == s
    ensures forall i :: 0 <= i < |nodes| && key !in nodes[i].owned ==> r[i].entries == nodes[i].entries
  {
    seq(|nodes|, i requires 0 <= i < |nodes| =>
      if key in nodes[i].owned then NodeView(SetSlot(nodes[i].entries, key, s), nodes[i].owned) else nodes[i])
  }

  /** Once the primary's entry is replicated, checkTtl passes with that entry's TTL on every
      node, provided some node owns the key and no other node holds a copy of it. */
  lemma ReplicatedEntryPassesCheckTtl(nodes: seq<NodeView>, key: Key, e: Entry)
    requires Valid(e) && !e.deleted
    requires exists i :: 0 <= i < |nodes| && key in nodes[i].owned
    requires forall i :: 0 <= i < |nodes| && key !in nodes[i].owned ==> key !in nodes[i].entries
    ensures TtlChecked(Replicate(nodes, key, Some(e)), key, e.ttl)
  {
    var r := Replicate(nodes, key, Some(e));
    var o :| 0 <= o < |nodes| && key in nodes[o].owned;
    assert Lookup(r[o].entries, key) == Some(e);
    assert HoldsEntry(r[o], key);
    forall i | 0 <= i < |r| ensures NodeTtlOk(r[i], key, e.ttl) {
      if key in nodes[i].owned {
        assert Lookup(r[i].entries, key) == Some(e);
      }
    }
  }

  /** Once a slot without a value is replicated, no node that owns the key shows a value
      for it; with no copies elsewhere, checkNoValue passes. */
  lemma ReplicatedRemovalPassesCheckNoValue(nodes: seq<NodeView>, key: Key, s: Option<Entry>, now: nat)
    requires !LiveSlot(s, now)
    requires forall i :: 0 <= i < |nodes| && key !in nodes[i].owned ==> key !in nodes[i].entries
    ensures NoValueAnywhere(Replicate(nodes, key, s), [key], now)
  {
  }
}
