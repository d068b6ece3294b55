/**
 * Expiry policies and the TTL decision they lead to.
 *
 * A JCache expiry policy answers, for each kind of operation, with a
 * duration or with null.  The cache turns that answer into one of four
 * decisions about the entry's time to live: leave it as it is, make the
 * entry eternal, expire it at once, or let it live for a number of
 * milliseconds from now.
 */
module Expiry {
  import opened Wrappers

  /** A duration as the cache sees it: the eternal duration, or an amount of milliseconds.
      An amount of zero is the "expire at once" duration. */
  datatype Duration = Eternal | Millis(amount: nat)

  /** The three kinds of operation an expiry policy tells apart. */
  datatype OpKind = Create | Update | Access

  /**
   * The policies the tests configure.  TestPolicy holds three nullable
   * millisecond amounts, given to its constructor in the order
   * (create, update, access); CreatedExpiryPolicy answers only for
   * creation; EternalExpiryPolicy answers "eternal" for creation and null
   * for update and access.
   */
  datatype ExpiryPolicy =
    | TestPolicy(create: Option<nat>, update: Option<nat>, access: Option<nat>)
    | CreatedExpiryPolicy(duration: Duration)
    | EternalExpiryPolicy
  {
    /** getExpiryForCreation, getExpiryForUpdate and getExpiryForAccess in one; None is a null Duration. */
    function ExpiryFor(op: OpKind): (r: Option<Duration>)
      ensures !this.TestPolicy? && op != Create ==> r.None?
      ensures r == Some(Eternal) ==> this == EternalExpiryPolicy || this == CreatedExpiryPolicy(Eternal)
    {
      match this
      case TestPolicy(c, u, a) =>
        var amount := TestPolicyField(c, u, a, op);
        if amount.Some? then Some(Millis(amount.value)) else None
      case CreatedExpiryPolicy(d) => if op == Create then Some(d) else None
      case EternalExpiryPolicy => if op == Create then Some(Eternal) else None
    }
  }

  /** The amount TestPolicy holds for op: the first, second or third constructor argument. */
  function TestPolicyField(c: Option<nat>, u: Option<nat>, a: Option<nat>, op: OpKind): Option<nat> {
    match op
    case Create => c
    case Update => u
    case Access => a
  }

  /** TestPolicy's constructor takes its amounts in the order (create, update, access): each
      getter answers null when its own argument is null, and otherwise that many
      milliseconds; it never answers "eternal". */
  lemma TestPolicyDurations(c: Option<nat>, u: Option<nat>, a: Option<nat>, op: OpKind)
    ensures TestPolicy(c, u, a).ExpiryFor(Create) == (if c.Some? then Some(Millis(c.value)) else None)
    ensures TestPolicy(c, u, a).ExpiryFor(Update) == (if u.Some? then Some(Millis(u.value)) else None)
    ensures TestPolicy(c, u, a).ExpiryFor(Access) == (if a.Some? then Some(Millis(a.value)) else None)
    ensures TestPolicy(c, u, a).ExpiryFor(op) != Some(Eternal)
  {
  }

  /** A created policy answers its duration for creation and null for update and access. */
  lemma CreatedPolicyAnswers(d: Duration)
    ensures CreatedExpiryPolicy(d).ExpiryFor(Create) == Some(d)
    ensures CreatedExpiryPolicy(d).ExpiryFor(Update).None?
    ensures CreatedExpiryPolicy(d).ExpiryFor(Access).None?
  {
  }

  /** The eternal policy answers "eternal" for creation and null for update and access. */
  lemma EternalPolicyAnswers()
    ensures EternalExpiryPolicy.ExpiryFor(Create) == Some(Eternal)
    ensures EternalExpiryPolicy.ExpiryFor(Update).None?
    ensures EternalExpiryPolicy.ExpiryFor(Access).None?
  {
  }

  /** The policy one call runs under: a withExpiryPolicy override, when there is one,
      replaces the configured policy whole. */
  function EffectivePolicy(configured: Option<ExpiryPolicy>, override: Option<ExpiryPolicy>): (r: Option<ExpiryPolicy>)
    ensures override.Some? ==> r == override
    ensures override.None? ==> r == configured
    ensures r.None? <==> configured.None? && override.None?
  {
    if override.Some? then override else configured
  }

  /** The duration for op under policy p; a cache configured with no factory at all
      behaves as if configured with the eternal policy. */
  function DurationFor(p: Option<ExpiryPolicy>, op: OpKind): (r: Option<Duration>)
    ensures p.None? ==> (r == Some(Eternal) <==> op == Create) && (r.None? <==> op != Create)
  {
    if p.Some? then p.value.ExpiryFor(op) else EternalExpiryPolicy.ExpiryFor(op)
  }

  /** An override decides every operation kind by itself, also where it answers null and the
      configured policy does not (no per-field merging); without an override the configured
      policy decides, and no factory is the same as the eternal policy. */
  lemma OverrideReplacesWhole(configured: Option<ExpiryPolicy>, override: Option<ExpiryPolicy>, op: OpKind)
    ensures override.Some? ==> DurationFor(EffectivePolicy(configured, override), op) == override.value.ExpiryFor(op)
    ensures override.None? ==> DurationFor(EffectivePolicy(configured, override), op) == DurationFor(configured, op)
    ensures DurationFor(None, op) == DurationFor(Some(EternalExpiryPolicy), op)
  {
  }

  /** What an operation does to an entry's time to live. */
  datatype TtlDecision =
    | Unchanged              // keep the TTL and the expire time the entry has
    | NoExpiry               // TTL 0: the entry never expires
    | ExpireNow              // the entry goes away as part of this operation
    | ExpireAfter(ttl: nat)  // the entry lives ttl milliseconds from now

  /**
   * The decision for an operation of kind op whose policy answered d.  A
   * null answer leaves an existing entry as it is, and creates an entry
   * with TTL 0; the eternal duration gives TTL 0; zero milliseconds expires
   * the entry at once; any other amount becomes the new TTL, whatever the
   * entry had before.
   */
  function Decide(op: OpKind, d: Option<Duration>): (r: TtlDecision)
    ensures r.ExpireAfter? ==> r.ttl > 0 && d == Some(Millis(r.ttl))
    ensures r == Unchanged <==> d.None? && op != Create
    ensures r == NoExpiry <==> d == Some(Eternal) || (d.None? && op == Create)
    ensures r == ExpireNow <==> d == Some(Millis(0))
  {
    match d
    case None => if op == Create then NoExpiry else Unchanged
    case Some(Eternal) => NoExpiry
    case Some(Millis(n)) => if n == 0 then ExpireNow else ExpireAfter(n)
  }

  /** The decision an operation of kind op takes under policy p. */
  function DecisionFor(p: Option<ExpiryPolicy>, op: OpKind): TtlDecision {
    Decide(op, DurationFor(p, op))
  }
}
