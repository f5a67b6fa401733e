/** What the bounded breaker cache holds after a history of lookups and of removals by key. */
module StoreHistory {
  import opened Prelude
  import opened StoreModel

  /** A lookup, or a retain that drops the given keys. */
  datatype Event<K> = Touch(key: K, at: nat) | Drop(keys: set<K>)

  /** The lookup times of a history increase strictly. */
  ghost predicate Increasing<K>(history: seq<Event<K>>) {
    forall i, j :: 0 <= i < j < |history| && history[i].Touch? && history[j].Touch? ==> history[i].at < history[j].at
  }

  /** The time of the last lookup. */
  function Now<K>(history: seq<Event<K>>): nat {
    if history == [] then 0
    else if history[|history| - 1].Touch? then history[|history| - 1].at
    else Now(history[..|history| - 1])
  }

  /** When each key was last looked up, dropped or not. */
  function AllUses<K>(history: seq<Event<K>>): map<K, nat> {
    if history == [] then map[]
    else match history[|history| - 1]
      case Touch(key, at) => AllUses(history[..|history| - 1])[key := at]
      case Drop(_) => AllUses(history[..|history| - 1])
  }

  /** The same for a history from which dropped keys are deleted. */
  function Remembered<K>(history: seq<Event<K>>): map<K, nat> {
    if history == [] then map[]
    else match history[|history| - 1]
      case Touch(key, at) => Remembered(history[..|history| - 1])[key := at]
      case Drop(keys) => Remembered(history[..|history| - 1]) - keys
  }

  ghost predicate Follows<K(!new)>(e: Event<K>, max: nat, idle: nat, before: map<K, nat>, after: map<K, nat>) {
    match e
    case Touch(key, at) => Lookup(before, key, at, max, idle, after)
    case Drop(keys) => after == before - keys
  }

  ghost predicate FollowsAt<K(!new)>(
    history: seq<Event<K>>, stores: seq<map<K, nat>>, max: nat, idle: nat, i: nat)
    requires |stores| == |history| + 1 && i < |history|
  {
    Follows(history[i], max, idle, stores[i], stores[i + 1])
  }

  /** The stores a history goes through, starting empty. */
  ghost predicate IsRun<K(!new)>(history: seq<Event<K>>, stores: seq<map<K, nat>>, max: nat, idle: nat) {
    && |stores| == |history| + 1 && stores[0] == map[]
    && forall i :: 0 <= i < |history| ==> FollowsAt(history, stores, max, idle, i)
  }

  // ---------------------------------------------------------------------------------------------
  // Every mixed history

  ghost predicate PartOf<K>(part: map<K, nat>, whole: map<K, nat>) {
    forall k :: k in part ==> k in whole && part[k] == whole[k]
  }

  /** How a store, the uses known to a history without the dropped keys, and all its uses are related. */
  ghost predicate Between<K(!new)>(all: map<K, nat>, known: map<K, nat>, now: nat, max: nat, idle: nat, store: map<K, nat>) {
    && Ordered(all, now) && PartOf(known, all)
    && PartOf(store, known) && |store| <= max
    && (forall k :: k in store ==> Age(now, store[k]) < idle)
    && HoldsNewer(known, store)
    && HoldsMostRecent(all, known, now, max, idle, store)
  }

  /** Whatever is known and was used more recently than a stored key is stored too. */
  ghost predicate HoldsNewer<K>(known: map<K, nat>, store: map<K, nat>) {
    forall k :: k in store && k in known ==> Newer(known, k) <= store.Keys
  }

  /** The most recent keys of all that are still known are stored. */
  ghost predicate HoldsMostRecent<K>(
    all: map<K, nat>, known: map<K, nat>, now: nat, max: nat, idle: nat, store: map<K, nat>)
  {
    forall k :: k in known && k in MostRecent(all, now, max, idle) ==> k in store
  }

  lemma TouchKeepsNewer<K(!new)>(
    known: map<K, nat>, key: K, now: nat, max: nat, idle: nat, store: map<K, nat>, after: map<K, nat>)
    requires PartOf(store, known) && HoldsNewer(known, store) && forall l :: l in known ==> known[l] < now
    requires Lookup(store, key, now, max, idle, after)
    ensures HoldsNewer(known[key := now], after) && PartOf(after, known[key := now])
  {
    forall k, x | k in after && x in Newer(known[key := now], k) ensures x in after {
      if x != key {
        assert k != key && k in store && x in Newer(known, k);
        assert x in store;
      }
    }
  }

  lemma InsertSize<K>(m: map<K, nat>, key: K, now: nat)
    ensures |m[key := now]| == if key in m then |m| else |m| + 1
  {
  }

  lemma RemoveSize<K>(m: map<K, nat>, key: K)
    requires key in m
    ensures |m - {key}| == |m| - 1
  {
    assert (m - {key}).Keys == m.Keys - {key};
    assert |(m - {key}).Keys| == |m - {key}| && |m.Keys| == |m|;
  }

  lemma PlacedSize<K(!new)>(young: map<K, nat>, key: K, now: nat, max: nat, after: map<K, nat>)
    requires 1 <= max && |young| <= max && Placed(young, key, now, max, after)
    ensures |after| <= max
    ensures forall k :: k in after ==> after[k] == now || (k in young && after[k] == young[k])
  {
    if key in young || |young| < max {
      InsertSize(young, key, now);
    } else {
      var oldest :| IsOldest(young, oldest) && after == (young - {oldest})[key := now];
      RemoveSize(young, oldest);
      InsertSize(young - {oldest}, key, now);
    }
  }

  /** A young key that is not displaced stays; a displaced one has a full store ahead of it, the new key included. */
  lemma PlacedOrBehind<K(!new)>(young: map<K, nat>, key: K, now: nat, max: nat, after: map<K, nat>, k: K)
    requires 1 <= max && Placed(young, key, now, max, after) && k in young && k != key
    ensures k in after || (IsOldest(young, k) && key !in young && max <= |young.Keys - {k} + {key}|)
  {
    if k !in after {
      assert |young.Keys| == |young|;
    }
  }

  lemma TouchKeepsSize<K(!new)>(key: K, now: nat, max: nat, idle: nat, store: map<K, nat>, after: map<K, nat>)
    requires 1 <= max && 1 <= idle && |store| <= max && Lookup(store, key, now, max, idle, after)
    ensures |after| <= max && forall k :: k in after ==> Age(now, after[k]) < idle
  {
    var young := Young(store, now, idle);
    Subset(young.Keys, store.Keys);
    assert |young.Keys| == |young| && |store.Keys| == |store|;
    PlacedSize(young, key, now, max, after);
  }

  /** A most recent key that is still known is stored before one more lookup, and that lookup does not displace it. */
  lemma StaysStored<K(!new)>(
    all: map<K, nat>, known: map<K, nat>, then_: nat, key: K, now: nat, max: nat, idle: nat,
    store: map<K, nat>, after: map<K, nat>, k: K)
    requires 1 <= max && PartOf(known, all) && PartOf(store, known) && HoldsMostRecent(all, known, then_, max, idle, store)
    requires Ordered(all, then_) && then_ <= now && forall l :: l in all ==> all[l] < now
    requires Lookup(store, key, now, max, idle, after)
    requires k in known && k != key && k in MostRecent(all[key := now], now, max, idle)
    ensures k in after
  {
    var young, newer := Young(store, now, idle), Newer(all[key := now], k);
    NewerAfterUse(all, key, now, k);
    Subset(Newer(all, k), newer);
    assert k in MostRecent(all, then_, max, idle);
    assert k in young;
    PlacedOrBehind(young, key, now, max, after, k);
    if k !in after {
      forall l | l in young.Keys - {k} ensures l in Newer(all, k) {
        assert young[l] == all[l] && young[k] == all[k] && young[k] <= young[l];
      }
      Subset(young.Keys - {k} + {key}, newer);
    }
  }

  lemma TouchKeepsMostRecent<K(!new)>(
    all: map<K, nat>, known: map<K, nat>, then_: nat, key: K, now: nat, max: nat, idle: nat,
    store: map<K, nat>, after: map<K, nat>)
    requires 1 <= max && PartOf(known, all) && PartOf(store, known) && HoldsMostRecent(all, known, then_, max, idle, store)
    requires Ordered(all, then_) && then_ <= now && forall l :: l in all ==> all[l] < now
    requires Lookup(store, key, now, max, idle, after)
    ensures HoldsMostRecent(all[key := now], known[key := now], now, max, idle, after)
  {
    forall k | k in known && k != key && k in MostRecent(all[key := now], now, max, idle) ensures k in after {
      StaysStored(all, known, then_, key, now, max, idle, store, after, k);
    }
  }

  lemma TouchKeepsOrder<K>(all: map<K, nat>, known: map<K, nat>, then_: nat, key: K, now: nat)
    requires Ordered(all, then_) && PartOf(known, all) && forall l :: l in all ==> all[l] < now
    ensures Ordered(all[key := now], now) && PartOf(known[key := now], all[key := now])
  {
  }

  lemma TouchKeepsBetween<K(!new)>(
    all: map<K, nat>, known: map<K, nat>, then_: nat, key: K, now: nat, max: nat, idle: nat,
    store: map<K, nat>, after: map<K, nat>)
    requires 1 <= max && 1 <= idle
    requires Between(all, known, then_, max, idle, store) && then_ <= now && forall l :: l in all ==> all[l] < now
    requires Lookup(store, key, now, max, idle, after)
    ensures Between(all[key := now], known[key := now], now, max, idle, after)
  {
    TouchKeepsOrder(all, known, then_, key, now);
    TouchKeepsNewer(known, key, now, max, idle, store, after);
    TouchKeepsSize(key, now, max, idle, store, after);
    TouchKeepsMostRecent(all, known, then_, key, now, max, idle, store, after);
  }

  lemma DropKeepsBetween<K(!new)>(
    all: map<K, nat>, known: map<K, nat>, now: nat, max: nat, idle: nat, store: map<K, nat>, keys: set<K>)
    requires Between(all, known, now, max, idle, store)
    ensures Between(all, known - keys, now, max, idle, store - keys)
  {
    Subset((store - keys).Keys, store.Keys);
    assert |(store - keys).Keys| == |store - keys| && |store.Keys| == |store|;
    forall k | k in store && k !in keys ensures Newer(known - keys, k) <= (store - keys).Keys {
      assert Newer(known - keys, k) <= Newer(known, k);
    }
  }

  /** One more event, seen from the uses of the history before it. */
  lemma UsesNext<K>(history: seq<Event<K>>, i: nat)
    requires i < |history|
    ensures history[i].Touch? ==>
              && AllUses(history[..i + 1]) == AllUses(history[..i])[history[i].key := history[i].at]
              && Remembered(history[..i + 1]) == Remembered(history[..i])[history[i].key := history[i].at]
              && Now(history[..i + 1]) == history[i].at
    ensures history[i].Drop? ==>
              && AllUses(history[..i + 1]) == AllUses(history[..i])
              && Remembered(history[..i + 1]) == Remembered(history[..i]) - history[i].keys
              && Now(history[..i + 1]) == Now(history[..i])
  {
    assert history[..i + 1][..i] == history[..i];
  }

  /** Every use so far, and the clock, is earlier than a later lookup. */
  lemma {:induction false} UsesBefore<K>(history: seq<Event<K>>, i: nat, at: nat)
    requires i <= |history| && forall j :: 0 <= j < i && history[j].Touch? ==> history[j].at < at
    ensures forall k :: k in AllUses(history[..i]) ==> AllUses(history[..i])[k] < at
    ensures Now(history[..i]) <= at
  {
    if i > 0 {
      UsesBefore(history, i - 1, at);
      UsesNext(history, i - 1);
    }
  }

  lemma EventKeepsBetween<K(!new)>(
    e: Event<K>, all: map<K, nat>, known: map<K, nat>, then_: nat, max: nat, idle: nat,
    store: map<K, nat>, after: map<K, nat>)
    requires 1 <= max && 1 <= idle && Between(all, known, then_, max, idle, store) && Follows(e, max, idle, store, after)
    requires e.Touch? ==> then_ <= e.at && forall l :: l in all ==> all[l] < e.at
    ensures e.Touch? ==> Between(all[e.key := e.at], known[e.key := e.at], e.at, max, idle, after)
    ensures e.Drop? ==> Between(all, known - e.keys, then_, max, idle, after)
  {
    match e {
      case Touch(key, at) => TouchKeepsBetween(all, known, then_, key, at, max, idle, store, after);
      case Drop(keys) => DropKeepsBetween(all, known, then_, max, idle, store, keys);
    }
  }

  lemma {:induction false} RunStaysBetween<K(!new)>(
    history: seq<Event<K>>, stores: seq<map<K, nat>>, max: nat, idle: nat, i: nat)
    requires 1 <= max && 1 <= idle && Increasing(history) && IsRun(history, stores, max, idle) && i <= |history|
    ensures Between(AllUses(history[..i]), Remembered(history[..i]), Now(history[..i]), max, idle, stores[i])
  {
    if i > 0 {
      var before, e := history[..i - 1], history[i - 1];
      assert FollowsAt(history, stores, max, idle, i - 1);
      RunStaysBetween(history, stores, max, idle, i - 1);
      if e.Touch? {
        UsesBefore(history, i - 1, e.at);
      }
      EventKeepsBetween(
        e, AllUses(before), Remembered(before), Now(before), max, idle, stores[i - 1], stores[i]);
      UsesNext(history, i - 1);
    }
  }

  lemma StoredIsMostRecent<K(!new)>(
    all: map<K, nat>, known: map<K, nat>, now: nat, max: nat, idle: nat, store: map<K, nat>)
    requires Between(all, known, now, max, idle, store)
    ensures PartOf(store, MostRecent(known, now, max, idle))
  {
    forall k | k in store ensures |Newer(known, k)| < max {
      Subset(Newer(known, k), store.Keys - {k});
      assert |store.Keys - {k}| == |store| - 1;
    }
  }

  /**
   * After any mix of lookups and removals the store lies between two sets of most recent keys: it holds those of all
   * lookups that have not been dropped since their last one, and none but those of the history without dropped keys.
   */
  lemma StoreIsBetween<K(!new)>(history: seq<Event<K>>, stores: seq<map<K, nat>>, max: nat, idle: nat, i: nat)
    requires 1 <= max && 1 <= idle && Increasing(history) && IsRun(history, stores, max, idle) && i <= |history|
    ensures |stores[i]| <= max
    ensures PartOf(stores[i], MostRecent(Remembered(history[..i]), Now(history[..i]), max, idle))
    ensures forall k :: k in MostRecent(AllUses(history[..i]), Now(history[..i]), max, idle)
                        && k in Remembered(history[..i]) ==>
              k in stores[i] && stores[i][k] == AllUses(history[..i])[k]
  {
    RunStaysBetween(history, stores, max, idle, i);
    StoredIsMostRecent(AllUses(history[..i]), Remembered(history[..i]), Now(history[..i]), max, idle, stores[i]);
  }

  // ---------------------------------------------------------------------------------------------
  // Histories whose removals forget

  /** Dropping these keys acts as deleting them from the history, by the condition that is exact for one removal. */
  predicate Forgets<K>(uses: map<K, nat>, now: nat, max: nat, idle: nat, keys: set<K>) {
    var held := MostRecent(uses, now, max, idle).Keys;
    held !! keys || Young(uses, now, idle).Keys - keys <= held
  }

  predicate ForgetsAt<K>(history: seq<Event<K>>, max: nat, idle: nat, i: nat)
    requires i < |history|
  {
    history[i].Drop? ==> Forgets(Remembered(history[..i]), Now(history[..i]), max, idle, history[i].keys)
  }

  /**
   * As long as every removal forgets, as in a history without any, the store holds exactly the `max` most recently
   * looked up keys that are younger than the idle limit, with dropped keys deleted, each with its last use.
   */
  lemma {:induction false} StoreIsMostRecent<K(!new)>(
    history: seq<Event<K>>, stores: seq<map<K, nat>>, max: nat, idle: nat, i: nat)
    requires 1 <= max && 1 <= idle && Increasing(history) && IsRun(history, stores, max, idle) && i <= |history|
    requires forall j :: 0 <= j < i ==> ForgetsAt(history, max, idle, j)
    ensures stores[i] == MostRecent(Remembered(history[..i]), Now(history[..i]), max, idle)
    ensures |stores[i]| <= max
  {
    StoreIsBetween(history, stores, max, idle, i);
    if i > 0 {
      var before := history[..i - 1];
      assert FollowsAt(history, stores, max, idle, i - 1) && ForgetsAt(history, max, idle, i - 1);
      StoreIsMostRecent(history, stores, max, idle, i - 1);
      RunStaysBetween(history, stores, max, idle, i - 1);
      KnownIsOrdered(AllUses(before), Remembered(before), Now(before));
      UsesNext(history, i - 1);
      match history[i - 1] {
        case Touch(key, at) =>
          UsesBefore(history, i - 1, at);
          LookupRefines(Remembered(before), Now(before), key, at, max, idle, stores[i - 1], stores[i]);
        case Drop(keys) => RetainForgetsIff(Remembered(before), Now(before), max, idle, keys);
      }
    }
  }

  lemma KnownIsOrdered<K>(all: map<K, nat>, known: map<K, nat>, now: nat)
    requires Ordered(all, now) && PartOf(known, all)
    ensures Ordered(known, now)
  {
  }

  /** After removals that forgot, one more removal keeps the store exact if and only if it forgets as well. */
  lemma NextDropForgetsIff<K(!new)>(history: seq<Event<K>>, stores: seq<map<K, nat>>, max: nat, idle: nat, i: nat)
    requires 1 <= max && 1 <= idle && Increasing(history) && IsRun(history, stores, max, idle)
    requires i < |history| && history[i].Drop? && forall j :: 0 <= j < i ==> ForgetsAt(history, max, idle, j)
    ensures stores[i + 1] == MostRecent(Remembered(history[..i + 1]), Now(history[..i + 1]), max, idle)
            <==> ForgetsAt(history, max, idle, i)
  {
    var before := history[..i];
    assert FollowsAt(history, stores, max, idle, i);
    StoreIsMostRecent(history, stores, max, idle, i);
    RunStaysBetween(history, stores, max, idle, i);
    KnownIsOrdered(AllUses(before), Remembered(before), Now(before));
    UsesNext(history, i);
    RetainForgetsIff(Remembered(before), Now(before), max, idle, history[i].keys);
  }

  /** Three lookups and a removal. */
  function Example<K(==)>(a: K, b: K, c: K): seq<Event<K>> {
    [Touch(a, 1), Touch(b, 2), Touch(c, 3), Drop({b})]
  }

  /** With room for two, the third lookup displaces the first key. */
  function ExampleStores<K(==)>(a: K, b: K, c: K): seq<map<K, nat>> {
    [map[], map[a := 1], map[a := 1, b := 2], map[b := 2, c := 3], map[c := 3]]
  }

  lemma ExampleIsRun<K(!new)>(a: K, b: K, c: K)
    requires a != b && b != c && a != c
    ensures Increasing(Example(a, b, c)) && IsRun(Example(a, b, c), ExampleStores(a, b, c), 2, 10)
  {
    var history, stores := Example(a, b, c), ExampleStores(a, b, c);
    Displaces(a, b, c);
    assert Young(map[a := 1], 2, 10) == map[a := 1];
    assert map[b := 2, c := 3] - {b} == map[c := 3];
    assert FollowsAt(history, stores, 2, 10, 0) && FollowsAt(history, stores, 2, 10, 1);
    assert FollowsAt(history, stores, 2, 10, 2) && FollowsAt(history, stores, 2, 10, 3);
  }

  lemma ExampleUses<K>(history: seq<Event<K>>, a: K, b: K, c: K)
    requires a != b && b != c && a != c && history == Example(a, b, c)
    ensures Remembered(history) == map[a := 1, b := 2, c := 3] - {b} && Now(history) == 3
  {
    UsesNext(history, 0);
    UsesNext(history, 1);
    UsesNext(history, 2);
    UsesNext(history, 3);
    assert history[..4] == history && history[..0] == [];
  }

  /**
   * A case where a removal does not forget: the first key, displaced by the third, does not come back when the second
   * is dropped, although it is then the second most recent key of what remains of the history.
   */
  lemma RetainIsNotForgetting<K(!new)>(a: K, b: K, c: K)
    requires a != b && b != c && a != c
    ensures Increasing(Example(a, b, c)) && IsRun(Example(a, b, c), ExampleStores(a, b, c), 2, 10)
    ensures ExampleStores(a, b, c)[4] == map[c := 3]
    ensures MostRecent(Remembered(Example(a, b, c)), Now(Example(a, b, c)), 2, 10) == map[a := 1, c := 3]
  {
    ExampleIsRun(a, b, c);
    ExampleUses(Example(a, b, c), a, b, c);
    PairIsMostRecent(a, b, c);
  }

  lemma Displaces<K(!new)>(a: K, b: K, c: K)
    requires a != b && b != c && a != c
    ensures Lookup(map[a := 1, b := 2], c, 3, 2, 10, map[b := 2, c := 3])
  {
    var two := map[a := 1, b := 2];
    assert Young(two, 3, 10) == two && IsOldest(two, a) && (two - {a})[c := 3] == map[b := 2, c := 3];
  }

  lemma PairIsMostRecent<K>(a: K, b: K, c: K)
    requires a != b && b != c && a != c
    ensures MostRecent(map[a := 1, b := 2, c := 3] - {b}, 3, 2, 10) == map[a := 1, c := 3]
  {
    var rest := map[a := 1, b := 2, c := 3] - {b};
    assert Newer(rest, a) == {c} && Newer(rest, c) == {};
  }
}
