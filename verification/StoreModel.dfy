/** The bounded breaker cache as a map from keys to their last use, and the most recently used keys of a history. */
module StoreModel {
  import opened Prelude

  function Age(now: nat, at: nat): nat {
    if now < at then 0 else now - at
  }

  /** The entries used recently enough to survive an eviction at `now`. */
  function Young<K>(uses: map<K, nat>, now: nat, idle: nat): map<K, nat> {
    map k | k in uses && Age(now, uses[k]) < idle :: uses[k]
  }

  ghost predicate IsOldest<K>(uses: map<K, nat>, k: K) {
    k in uses && forall l :: l in uses ==> uses[k] <= uses[l]
  }

  /** A looked-up key enters the young entries; a new one displaces a least recently used one when they are full. */
  ghost predicate Placed<K(!new)>(young: map<K, nat>, key: K, now: nat, max: nat, after: map<K, nat>) {
    if key in young || |young| < max then after == young[key := now]
    else exists oldest :: IsOldest(young, oldest) && after == (young - {oldest})[key := now]
  }

  /** One lookup: idle entries go, then the key is placed. */
  ghost predicate Lookup<K(!new)>(before: map<K, nat>, key: K, now: nat, max: nat, idle: nat, after: map<K, nat>) {
    Placed(Young(before, now, idle), key, now, max, after)
  }

  // ---------------------------------------------------------------------------------------------
  // The most recently used keys

  /** The keys used more recently than `k`. */
  function Newer<K>(uses: map<K, nat>, k: K): set<K>
    requires k in uses
  {
    set l | l in uses && uses[l] > uses[k]
  }

  /** The `max` most recently used keys, as far as they are younger than `idle` at `now`. */
  function MostRecent<K>(uses: map<K, nat>, now: nat, max: nat, idle: nat): map<K, nat> {
    map k | k in uses && |Newer(uses, k)| < max && Age(now, uses[k]) < idle :: uses[k]
  }

  /** No two keys were last used at the same time, and none after `now`. */
  ghost predicate Ordered<K>(uses: map<K, nat>, now: nat) {
    && (forall k, l :: k in uses && l in uses && k != l ==> uses[k] != uses[l])
    && (forall k :: k in uses ==> uses[k] <= now)
  }

  lemma {:induction false} Subset<K>(a: set<K>, b: set<K>)
    requires a <= b
    ensures |a| <= |b|
    decreases b
  {
    if a != {} {
      var x :| x in a;
      Subset(a - {x}, b - {x});
    }
  }

  lemma Excess<K>(a: set<K>, b: set<K>)
    requires |b| < |a|
    ensures a - b != {}
  {
    if a - b == {} {
      forall x | x in a ensures x in b {
        assert x !in a - b;
      }
      Subset(a, b);
    }
  }

  lemma {:induction false} SomeOldest<K>(uses: map<K, nat>, among: set<K>) returns (k: K)
    requires among != {} && among <= uses.Keys
    ensures k in among && forall l :: l in among ==> uses[k] <= uses[l]
    decreases among
  {
    var x :| x in among;
    if among == {x} {
      return x;
    }
    var y := SomeOldest(uses, among - {x});
    return if uses[x] <= uses[y] then x else y;
  }

  /** A key used later has fewer keys ahead of it. */
  lemma NewerIsSmaller<K>(uses: map<K, nat>, l: K, k: K)
    requires k in uses && l in Newer(uses, k)
    ensures |Newer(uses, l)| < |Newer(uses, k)|
  {
    Subset(Newer(uses, l) + {l}, Newer(uses, k));
  }

  /** Everything used more recently than a held key is held too, and the oldest held key is older than the rest. */
  lemma HeldKeysAreClosed<K>(uses: map<K, nat>, now: nat, max: nat, idle: nat, k: K)
    requires k in MostRecent(uses, now, max, idle)
    ensures Newer(uses, k) <= MostRecent(uses, now, max, idle).Keys - {k}
    ensures |Newer(uses, k)| < |MostRecent(uses, now, max, idle)|
    ensures Ordered(uses, now) && IsOldest(MostRecent(uses, now, max, idle), k) ==>
              Newer(uses, k) == MostRecent(uses, now, max, idle).Keys - {k}
  {
    var held := MostRecent(uses, now, max, idle);
    forall l | l in Newer(uses, k)
      ensures l in held
    {
      NewerIsSmaller(uses, l, k);
    }
    Subset(Newer(uses, k), held.Keys - {k});
  }

  /** A store never holds more than its limit. */
  lemma HeldWithinLimit<K>(uses: map<K, nat>, now: nat, max: nat, idle: nat)
    requires Ordered(uses, now)
    ensures |MostRecent(uses, now, max, idle)| <= max
  {
    var held := MostRecent(uses, now, max, idle);
    if held.Keys != {} {
      var k := SomeOldest(held, held.Keys);
      HeldKeysAreClosed(uses, now, max, idle, k);
      assert |held.Keys - {k}| == |held.Keys| - 1;
    }
  }

  // ---------------------------------------------------------------------------------------------
  // Lookups refine the history

  /** A later eviction leaves what a fresh one would. */
  lemma YoungOfHeld<K>(uses: map<K, nat>, then_: nat, now: nat, max: nat, idle: nat)
    requires then_ <= now && Ordered(uses, then_)
    ensures Young(MostRecent(uses, then_, max, idle), now, idle) == MostRecent(uses, now, max, idle)
  {
  }

  /** The keys ahead of `k` after one more use are those before it and the key just used. */
  lemma NewerAfterUse<K>(uses: map<K, nat>, key: K, now: nat, k: K)
    requires Ordered(uses, now) && (forall l :: l in uses ==> uses[l] < now) && k in uses && k != key
    ensures Newer(uses[key := now], k) == Newer(uses, k) + {key}
  {
  }

  /** A held key stays among the most recent after one more use exactly when it is not pushed out as the last one. */
  lemma StaysHeld<K>(uses: map<K, nat>, key: K, now: nat, max: nat, idle: nat, k: K)
    requires Ordered(uses, now) && (forall l :: l in uses ==> uses[l] < now)
    requires k in uses && k != key && 1 <= max
    ensures var held := MostRecent(uses, now, max, idle);
            k in MostRecent(uses[key := now], now, max, idle)
            <==> k in held && (key in held || |held| < max || !IsOldest(held, k))
  {
    var held, after := MostRecent(uses, now, max, idle), uses[key := now];
    NewerAfterUse(uses, key, now, k);
    HeldWithinLimit(uses, now, max, idle);
    Subset(Newer(uses, k), Newer(after, k));
    if k in held {
      HeldKeysAreClosed(uses, now, max, idle, k);
      if key in Newer(uses, k) {
        assert Newer(after, k) == Newer(uses, k);
      } else if key in held {
        HeldKeysAreClosed(uses, now, max, idle, key);
        assert k in Newer(uses, key);
        NewerIsSmaller(uses, k, key);
      } else if |held| == max {
        if IsOldest(held, k) {
          assert |held.Keys - {k}| == max - 1;
        } else {
          var l :| l in held && held[l] < held[k];
          HeldKeysAreClosed(uses, now, max, idle, l);
          NewerIsSmaller(uses, k, l);
        }
      }
    }
  }

  /** The most recent keys after one more use, from those before it. */
  lemma HeldAfterUse<K>(uses: map<K, nat>, key: K, now: nat, max: nat, idle: nat)
    requires 1 <= max && 1 <= idle && Ordered(uses, now) && forall l :: l in uses ==> uses[l] < now
    ensures var held, after := MostRecent(uses, now, max, idle), MostRecent(uses[key := now], now, max, idle);
            && key in after
            && forall k :: k in after <==> k == key || (k in held && (key in held || |held| < max || !IsOldest(held, k)))
  {
    var held, after := MostRecent(uses, now, max, idle), MostRecent(uses[key := now], now, max, idle);
    assert Newer(uses[key := now], key) == {};
    forall k | k != key
      ensures k in after <==> k in held && (key in held || |held| < max || !IsOldest(held, k))
    {
      if k in uses {
        StaysHeld(uses, key, now, max, idle, k);
      }
    }
  }

  /**
   * One lookup takes a store that holds the most recently used keys of a history to one that holds those of the
   * longer history: the least recently used key it may displace is the one that falls out of the first `max`.
   */
  lemma LookupRefines<K(!new)>(
    uses: map<K, nat>, then_: nat, key: K, now: nat, max: nat, idle: nat, store: map<K, nat>, after: map<K, nat>)
    requires 1 <= max && 1 <= idle && then_ <= now && Ordered(uses, then_) && forall l :: l in uses ==> uses[l] < now
    requires store == MostRecent(uses, then_, max, idle) && Lookup(store, key, now, max, idle, after)
    ensures after == MostRecent(uses[key := now], now, max, idle)
  {
    var young, spec := MostRecent(uses, now, max, idle), MostRecent(uses[key := now], now, max, idle);
    YoungOfHeld(uses, then_, now, max, idle);
    HeldAfterUse(uses, key, now, max, idle);
    DisplacementMatches(young, key, now, max, after, spec);
  }

  /** The displaced key is determined, so keys that match one by one make equal stores. */
  lemma DisplacementMatches<K(!new)>(young: map<K, nat>, key: K, now: nat, max: nat, after: map<K, nat>, spec: map<K, nat>)
    requires Placed(young, key, now, max, after)
    requires forall k, l :: k in young && l in young && k != l ==> young[k] != young[l]
    requires forall k :: k in spec <==> k == key || (k in young && (key in young || |young| < max || !IsOldest(young, k)))
    requires spec[key] == now && forall k :: k in spec && k != key ==> spec[k] == young[k]
    ensures after == spec
  {
    if !(key in young || |young| < max) {
      var oldest :| IsOldest(young, oldest) && after == (young - {oldest})[key := now];
      forall k | IsOldest(young, k) ensures k == oldest {}
    }
    forall k
      ensures k in after <==> k in spec
      ensures k in after && k in spec ==> after[k] == spec[k]
    {
    }
  }

  // ---------------------------------------------------------------------------------------------
  // Retain

  /** A young key that is not held has a full store ahead of it. */
  lemma LateKeysAreBehind<K>(uses: map<K, nat>, now: nat, max: nat, idle: nat, k: K)
    requires Ordered(uses, now) && k in Young(uses, now, idle) && k !in MostRecent(uses, now, max, idle)
    ensures MostRecent(uses, now, max, idle).Keys <= Newer(uses, k)
    ensures max <= |MostRecent(uses, now, max, idle)|
  {
    var held := MostRecent(uses, now, max, idle);
    forall l | l in held
      ensures l in Newer(uses, k)
    {
      HeldKeysAreClosed(uses, now, max, idle, l);
      var newer := Newer(uses, l);
      assert uses[l] != uses[k] && (uses[k] > uses[l] ==> k in newer);
    }
    if |held| < max {
      var ahead := Newer(uses, k) - held.Keys;
      Excess(Newer(uses, k), held.Keys);
      var l := Latest(uses, ahead);
      forall m | m in Newer(uses, l)
        ensures m in held
      {
        assert m !in ahead && m in Newer(uses, k);
      }
      Subset(Newer(uses, l), held.Keys);
    }
  }

  /** The latest of the young keys that were not held moves up when a held one is forgotten. */
  lemma FirstLateIsPromoted<K>(
    uses: map<K, nat>, now: nat, max: nat, idle: nat, dropped: set<K>, late: set<K>, k: K)
    requires Ordered(uses, now) && !(MostRecent(uses, now, max, idle).Keys !! dropped)
    requires late == Young(uses, now, idle).Keys - dropped - MostRecent(uses, now, max, idle).Keys
    requires k in late && forall l :: l in late ==> uses[l] <= uses[k]
    ensures k in MostRecent(uses - dropped, now, max, idle)
  {
    var held := MostRecent(uses, now, max, idle);
    var d :| d in held && d in dropped;
    HeldWithinLimit(uses, now, max, idle);
    Subset(Newer(uses - dropped, k), held.Keys - {d});
  }

  /**
   * Dropping keys from the store acts as deleting them from the history if and only if no dropped key was cached, or
   * every young key that is not dropped is cached already.
   */
  lemma RetainForgetsIff<K>(uses: map<K, nat>, now: nat, max: nat, idle: nat, dropped: set<K>)
    requires Ordered(uses, now)
    ensures var held := MostRecent(uses, now, max, idle);
            held - dropped == MostRecent(uses - dropped, now, max, idle)
            <==> held.Keys !! dropped || (Young(uses, now, idle).Keys - dropped) <= held.Keys
  {
    var young, held := Young(uses, now, idle).Keys - dropped, MostRecent(uses, now, max, idle).Keys;
    RetainForgetsUnlessPromoted(uses, now, max, idle, dropped, young - held);
    LateIsPromotedIff(uses, now, max, idle, dropped, young - held);
    NothingLeftIff(young, held);
  }

  lemma NothingLeftIff<K>(a: set<K>, b: set<K>)
    ensures a - b == {} <==> a <= b
  {
    forall x | x in a ensures x in a - b || x in b {}
  }

  lemma RetainForgetsUnlessPromoted<K>(uses: map<K, nat>, now: nat, max: nat, idle: nat, dropped: set<K>, late: set<K>)
    requires Ordered(uses, now)
    requires late == Young(uses, now, idle).Keys - dropped - MostRecent(uses, now, max, idle).Keys
    ensures MostRecent(uses, now, max, idle) - dropped == MostRecent(uses - dropped, now, max, idle)
            <==> late !! MostRecent(uses - dropped, now, max, idle).Keys
  {
    ForgottenAddsOnlyLate(uses, now, max, idle, dropped);
    SameWithoutLate(uses, MostRecent(uses, now, max, idle), MostRecent(uses - dropped, now, max, idle), dropped, late);
  }

  /** Forgetting promotes a young key that was not held unless nothing held is forgotten or there is no such key. */
  lemma LateIsPromotedIff<K>(uses: map<K, nat>, now: nat, max: nat, idle: nat, dropped: set<K>, late: set<K>)
    requires Ordered(uses, now)
    requires late == Young(uses, now, idle).Keys - dropped - MostRecent(uses, now, max, idle).Keys
    ensures late !! MostRecent(uses - dropped, now, max, idle).Keys
            <==> MostRecent(uses, now, max, idle).Keys !! dropped || late == {}
  {
    if MostRecent(uses, now, max, idle).Keys !! dropped {
      NoLateIsPromoted(uses, now, max, idle, dropped);
    } else if late != {} {
      var k := Latest(uses, late);
      FirstLateIsPromoted(uses, now, max, idle, dropped, late, k);
    }
  }

  lemma NoLateIsPromoted<K>(uses: map<K, nat>, now: nat, max: nat, idle: nat, dropped: set<K>)
    requires Ordered(uses, now) && MostRecent(uses, now, max, idle).Keys !! dropped
    ensures forall k :: k in Young(uses, now, idle) && k !in dropped && k !in MostRecent(uses, now, max, idle) ==>
              k !in MostRecent(uses - dropped, now, max, idle)
  {
    forall k | k in Young(uses, now, idle) && k !in dropped && k !in MostRecent(uses, now, max, idle)
      ensures k !in MostRecent(uses - dropped, now, max, idle)
    {
      LateKeysAreBehind(uses, now, max, idle, k);
      NewerWithout(uses, dropped, k);
      Subset(MostRecent(uses, now, max, idle).Keys, Newer(uses, k) - dropped);
    }
  }

  lemma SameWithoutLate<K>(
    uses: map<K, nat>, held: map<K, nat>, forgotten: map<K, nat>, dropped: set<K>, late: set<K>)
    requires forall k :: k in held ==> k in uses && held[k] == uses[k]
    requires forall k :: k in held && k !in dropped ==> k in forgotten
    requires forall k :: k in forgotten ==>
               k !in dropped && k in uses && forgotten[k] == uses[k] && (k in held || k in late)
    requires late !! held.Keys
    ensures held - dropped == forgotten <==> late !! forgotten.Keys
  {
    if late !! forgotten.Keys {
      assert (held - dropped).Keys == forgotten.Keys;
    }
  }

  lemma NewerWithout<K>(uses: map<K, nat>, dropped: set<K>, k: K)
    requires k in uses && k !in dropped
    ensures Newer(uses - dropped, k) == Newer(uses, k) - dropped
    ensures |Newer(uses - dropped, k)| <= |Newer(uses, k)|
  {
    Subset(Newer(uses, k) - dropped, Newer(uses, k));
  }

  /** Forgetting keys keeps every other held key and can only add young ones that were not held. */
  lemma ForgottenAddsOnlyLate<K>(uses: map<K, nat>, now: nat, max: nat, idle: nat, dropped: set<K>)
    ensures var held, forgotten := MostRecent(uses, now, max, idle), MostRecent(uses - dropped, now, max, idle);
            && (forall k :: k in held && k !in dropped ==> k in forgotten)
            && (forall k :: k in forgotten ==>
                  k !in dropped && k in uses && forgotten[k] == uses[k] && k in Young(uses, now, idle))
  {
    forall k | k in MostRecent(uses, now, max, idle) && k !in dropped
      ensures k in MostRecent(uses - dropped, now, max, idle)
    {
      NewerWithout(uses, dropped, k);
    }
  }

  lemma {:induction false} Latest<K>(uses: map<K, nat>, among: set<K>) returns (k: K)
    requires among != {} && among <= uses.Keys
    ensures k in among && forall l :: l in among ==> uses[l] <= uses[k]
    decreases among
  {
    var x :| x in among;
    if among == {x} {
      return x;
    }
    var y := Latest(uses, among - {x});
    return if uses[x] >= uses[y] then x else y;
  }
}
