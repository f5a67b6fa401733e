/** The endpoint-breaker cache and the discovery membership that guards it, as objects. */
module EndpointBreakersObject {
  import opened Prelude
  import opened Service
  import opened Memberships
  import S = StoreModel
  import B = BreakerModel
  import opened CircuitBreakerObject

  datatype EndpointEntry = EndpointEntry(breaker: CircuitBreaker, lastUsed: nat)

  /** The time gone by since `at`; a clock that went back has not moved. */
  function Since(at: nat, now: nat): nat {
    if at <= now then now - at else 0
  }

  /** When each cached key was last used. */
  ghost function UsesOf<K>(entries: map<K, EndpointEntry>): map<K, nat> {
    map k | k in entries :: entries[k].lastUsed
  }

  lemma UsesOfInsert<K>(entries: map<K, EndpointEntry>, k: K, e: EndpointEntry)
    ensures UsesOf(entries[k := e]) == UsesOf(entries)[k := e.lastUsed]
  {
  }

  lemma UsesOfRemove<K>(entries: map<K, EndpointEntry>, k: K)
    ensures UsesOf(entries - {k}) == UsesOf(entries) - {k}
  {
  }

  lemma UsesOfSize<K>(entries: map<K, EndpointEntry>)
    ensures UsesOf(entries).Keys == entries.Keys && |UsesOf(entries)| == |entries|
  {
    assert UsesOf(entries).Keys == entries.Keys;
    assert |UsesOf(entries)| == |UsesOf(entries).Keys| == |entries.Keys| == |entries|;
  }

  /** A bounded map of breakers that forgets idle entries and, when full, a least recently used one. */
  class EndpointBreakerStore<K(==, !new)> {
    const config: B.Config
    const maxEntries: nat
    const idleEviction: nat
    var entries: map<K, EndpointEntry>

    constructor (config: B.Config, maxEntries: nat, idleEviction: nat)
      requires B.ValidConfig(config) && 1 <= maxEntries && 1 <= idleEviction
      ensures this.config == config && this.maxEntries == maxEntries && this.idleEviction == idleEviction
      ensures entries == map[]
    {
      this.config, this.maxEntries, this.idleEviction := config, maxEntries, idleEviction;
      entries := map[];
    }

    ghost function Uses(): map<K, nat>
      reads this
    {
      UsesOf(entries)
    }

    /** A young key keeps its breaker; a missing or idle one gets a new breaker; no other key is given one. */
    method GetOrInsert(key: K, now: nat) returns (breaker: CircuitBreaker)
      requires B.ValidConfig(config) && 1 <= maxEntries
      modifies this`entries
      ensures S.Lookup(old(Uses()), key, now, maxEntries, idleEviction, Uses())
      ensures key in entries && entries[key] == EndpointEntry(breaker, now)
      ensures if key in old(entries) && Since(old(entries)[key].lastUsed, now) < idleEviction
              then breaker == old(entries)[key].breaker
              else fresh(breaker) && breaker.Valid() && breaker.View() == B.Init(config, now)
      ensures forall k :: k in entries && k != key ==> k in old(entries) && entries[k] == old(entries)[k]
    {
      EvictIdle(now);
      ghost var young := entries;
      UsesOfSize(young);
      if key in entries {
        breaker := entries[key].breaker;
        UsesOfInsert(entries, key, EndpointEntry(breaker, now));
        entries := entries[key := EndpointEntry(breaker, now)];
        return;
      }
      if |entries| >= maxEntries {
        RemoveOldest();
      }
      breaker := new CircuitBreaker(config, now);
      UsesOfInsert(entries, key, EndpointEntry(breaker, now));
      entries := entries[key := EndpointEntry(breaker, now)];
    }

    /** Forgets one least recently used entry. */
    method RemoveOldest()
      requires |entries| > 0
      modifies this`entries
      ensures exists oldest :: S.IsOldest(old(Uses()), oldest) && Uses() == old(Uses()) - {oldest}
      ensures forall k :: k in entries ==> k in old(entries) && entries[k] == old(entries)[k]
    {
      var oldest := LeastRecentlyUsed();
      UsesOfRemove(entries, oldest);
      entries := entries - {oldest};
    }

    method EvictIdle(now: nat)
      modifies this`entries
      ensures Uses() == S.Young(old(Uses()), now, idleEviction)
      ensures forall k :: k in entries ==> k in old(entries) && entries[k] == old(entries)[k]
    {
      entries := map k | k in entries && S.Age(now, entries[k].lastUsed) < idleEviction :: entries[k];
    }

    /** Scans the entries for one with the smallest last use. */
    method LeastRecentlyUsed() returns (oldest: K)
      requires |entries| > 0
      ensures S.IsOldest(Uses(), oldest)
    {
      var rest := entries.Keys;
      assert |entries.Keys| > 0;
      oldest :| oldest in rest;
      rest := rest - {oldest};
      while rest != {}
        invariant rest <= entries.Keys && oldest in entries
        invariant forall k :: k in entries && k !in rest ==> entries[oldest].lastUsed <= entries[k].lastUsed
        decreases rest
      {
        var k :| k in rest;
        if entries[k].lastUsed < entries[oldest].lastUsed {
          oldest := k;
        }
        rest := rest - {k};
      }
    }

    method Retain(keep: K -> bool)
      modifies this`entries
      ensures entries == map k | k in old(entries) && keep(k) :: old(entries)[k]
    {
      entries := map k | k in entries && keep(k) :: entries[k];
    }
  }

  datatype Source = Direct | Discovery

  datatype Key = Key(service: Text, binding: Text, source: Source, endpoint: Text)

  function MemberOf(k: Key): Member {
    Member(k.service, k.endpoint)
  }

  /** A lookup of a directly configured endpoint, which takes the store lock alone. */
  datatype DirectLookup = DirectLookup(service: Text, binding: Text, endpoint: Text, now: nat)

  function KeyOf(l: DirectLookup): Key {
    Key(l.service, l.binding, Direct, l.endpoint)
  }

  /** The keys an eviction takes out of the cache. */
  predicate Evicts(evicted: set<Member>, k: Key) {
    k.source.Discovery? && MemberOf(k) in evicted
  }

  /**
   * The membership lock is held from `pending` being set until it is cleared; direct lookups may still come between,
   * as they take only the store lock.
   */
  class EndpointBreakers {
    const store: EndpointBreakerStore<Key>
    var owners: map<Selector, set<Member>>
    var references: map<Member, nat>
    /** The members evicted from the index whose cached breakers have not been removed yet. */
    ghost var pending: set<Member>

    ghost function View(): Index
      reads this
    {
      Index(owners, references)
    }

    /** Cached discovery breakers belong to referenced members, or to members about to be removed. */
    ghost predicate Valid()
      reads this, store
    {
      && B.ValidConfig(store.config) && 1 <= store.maxEntries && 1 <= store.idleEviction
      && Coherent(View())
      && forall k :: k in store.entries && k.source.Discovery? ==> MemberOf(k) in references.Keys + pending
    }

    constructor (config: B.Config, maxEntries: nat, idleEviction: nat)
      requires B.ValidConfig(config) && 1 <= maxEntries && 1 <= idleEviction
      ensures Valid() && fresh(store) && View() == Index(map[], map[]) && pending == {} && store.entries == map[]
    {
      store := new EndpointBreakerStore(config, maxEntries, idleEviction);
      owners, references, pending := map[], map[], {};
    }

    /** A direct lookup needs no membership: it finds its breaker again while that is cached and not idle. */
    method GetDirect(lookup: DirectLookup) returns (breaker: CircuitBreaker)
      requires Valid()
      modifies store`entries
      ensures Valid()
      ensures var key := Key(lookup.service, lookup.binding, Direct, lookup.endpoint);
              && S.Lookup(old(store.Uses()), key, lookup.now, store.maxEntries, store.idleEviction, store.Uses())
              && key in store.entries && store.entries[key] == EndpointEntry(breaker, lookup.now)
              && (if key in old(store.entries)
                     && Since(old(store.entries)[key].lastUsed, lookup.now) < store.idleEviction
                  then breaker == old(store.entries)[key].breaker
                  else fresh(breaker) && breaker.Valid() && breaker.View() == B.Init(store.config, lookup.now))
              && (forall k :: k in store.entries && k != key ==>
                    k in old(store.entries) && store.entries[k] == old(store.entries)[k])
    {
      breaker := store.GetOrInsert(KeyOf(lookup), lookup.now);
    }

    /**
     * A discovery lookup caches a breaker only for a referenced member, and finds it again while it is cached and not
     * idle; any other member gets a breaker of its own.
     */
    method GetDiscovered(service: Text, binding: Text, endpoint: Text, now: nat) returns (breaker: CircuitBreaker)
      requires Valid() && pending == {}
      modifies store`entries
      ensures Valid()
      ensures var key := Key(service, binding, Discovery, endpoint);
              if Member(service, endpoint) in references then
                && S.Lookup(old(store.Uses()), key, now, store.maxEntries, store.idleEviction, store.Uses())
                && key in store.entries && store.entries[key] == EndpointEntry(breaker, now)
                && (if key in old(store.entries)
                       && Since(old(store.entries)[key].lastUsed, now) < store.idleEviction
                    then breaker == old(store.entries)[key].breaker
                    else fresh(breaker) && breaker.Valid() && breaker.View() == B.Init(store.config, now))
                && (forall k :: k in store.entries && k != key ==>
                      k in old(store.entries) && store.entries[k] == old(store.entries)[k])
              else
                && store.entries == old(store.entries)
                && fresh(breaker) && breaker.Valid() && breaker.View() == B.Init(store.config, now)
    {
      var key := Key(service, binding, Discovery, endpoint);
      if MemberOf(key) in references {
        breaker := store.GetOrInsert(key, now);
      } else {
        breaker := new CircuitBreaker(store.config, now);
      }
    }

    method IncrementReferences(members: set<Member>)
      modifies this`references
      ensures references == Incremented(old(references), members)
    {
      var rest := members;
      while rest != {}
        invariant rest <= members
        invariant references.Keys == old(references).Keys + (members - rest)
        invariant forall m :: m in references ==>
                    references[m] == (if m in old(references) then old(references)[m] else 0)
                                     + (if m in members - rest then 1 else 0)
        decreases rest
      {
        var m :| m in rest;
        var count := if m in references then references[m] else 0;
        references := references[m := count + 1];
        rest := rest - {m};
      }
      assert references.Keys == Incremented(old(references), members).Keys;
    }

    method DecrementReferences(members: set<Member>) returns (evicted: set<Member>)
      modifies this`references
      ensures references == Decremented(old(references), members)
      ensures evicted == Evicted(old(references), members)
    {
      var rest := members;
      evicted := {};
      while rest != {}
        invariant rest <= members
        invariant references == Decremented(old(references), members - rest)
        invariant evicted == Evicted(old(references), members - rest)
        decreases rest
      {
        var m :| m in rest;
        assert members - (rest - {m}) == members - rest + {m};
        if m in references {
          if references[m] > 1 {
            references := references[m := references[m] - 1];
          } else {
            references := references - {m};
            evicted := evicted + {m};
          }
        }
        rest := rest - {m};
      }
      assert members - rest == members;
    }

    /** Updates the index for one owner; the cached breakers of `pending` are yet to be removed. */
    method BeginReplace(s: Selector, current: set<Member>) returns (evicted: set<Member>)
      requires Valid() && pending == {}
      modifies this
      ensures Valid() && View() == Replace(old(View()), s, current)
      ensures evicted == pending == Evicted(old(references), Held(old(View()), s) - current)
    {
      ReplaceKeepsCoherent(View(), s, current);
      ReferencedAfter(View(), s, current);
      var previous := Held(Index(owners, references), s);
      owners := owners - {s};
      evicted := DecrementReferences(previous - current);
      IncrementReferences(current - previous);
      owners := owners[s := current];
      assert owners == old(owners)[s := current];
      pending := evicted;
    }

    method BeginRemove(s: Selector) returns (evicted: set<Member>)
      requires Valid() && pending == {}
      modifies this
      ensures Valid() && View() == Remove(old(View()), s)
      ensures evicted == pending == Evicted(old(references), Held(old(View()), s))
    {
      RemoveKeepsCoherent(View(), s);
      ReferencedAfter(View(), s, {});
      var removed := Held(Index(owners, references), s);
      owners := owners - {s};
      evicted := DecrementReferences(removed);
      pending := evicted;
    }

    /** Takes out the cached breakers of the evicted members and releases the membership lock. */
    method RemoveCached(evicted: set<Member>)
      requires Valid() && evicted == pending
      modifies store`entries, this`pending
      ensures Valid() && pending == {}
      ensures forall k ::
                k in store.entries
                <==> k in old(store.entries) && !(k.source.Discovery? && Member(k.service, k.endpoint) in evicted)
      ensures forall k :: k in store.entries ==> store.entries[k] == old(store.entries)[k]
    {
      store.Retain(k => !Evicts(evicted, k));
      pending := {};
    }

    /** Direct lookups that come between the two locks; they neither add nor touch a discovery breaker. */
    method Interleave(lookups: seq<DirectLookup>)
      requires Valid()
      modifies store`entries
      ensures Valid()
      ensures lookups == [] ==> store.entries == old(store.entries)
      ensures forall k :: k in store.entries && k.source.Discovery? ==>
                k in old(store.entries) && store.entries[k] == old(store.entries)[k]
    {
      for i := 0 to |lookups|
        invariant Valid()
        invariant i == 0 ==> store.entries == old(store.entries)
        invariant forall k :: k in store.entries && k.source.Discovery? ==>
                    k in old(store.entries) && store.entries[k] == old(store.entries)[k]
      {
        var _ := GetDirect(lookups[i]);
      }
    }

    /**
     * A whole snapshot update, with any direct lookups between its membership change and its cache removal: the owner
     * holds the endpoints under its identity, other owners what they held, and the cache loses exactly the members
     * that nobody holds any more.
     */
    method ReplaceDiscovery(s: Selector, endpoints: seq<Text>, between: seq<DirectLookup>)
      requires Valid() && pending == {}
      modifies this, store`entries
      ensures Valid() && pending == {} && View() == Replace(old(View()), s, MembersOf(s, endpoints))
      ensures owners.Keys == old(owners).Keys + {s}
      ensures forall m :: m in owners[s] <==> m.service == Identity(s) && m.endpoint in endpoints
      ensures forall o :: o in old(owners) && o != s ==> owners[o] == old(owners)[o]
      ensures forall e :: e in endpoints ==> Member(Identity(s), e) in references
      ensures forall m :: m in references <==> exists o :: o in owners && m in owners[o]
      ensures forall k :: k in store.entries && k.source.Discovery? ==>
                Member(k.service, k.endpoint) in references
                && k in old(store.entries) && store.entries[k] == old(store.entries)[k]
      ensures between == [] ==>
                forall k :: k in old(store.entries) ==>
                  if k.source.Discovery? && Member(k.service, k.endpoint) !in references then k !in store.entries
                  else k in store.entries && store.entries[k] == old(store.entries)[k]
    {
      var evicted := BeginReplace(s, MembersOf(s, endpoints));
      ReferencedAfter(old(View()), s, MembersOf(s, endpoints));
      ReferencedIffHeld(View());
      assert forall e :: e in endpoints ==> Member(Identity(s), e) in owners[s];
      Interleave(between);
      RemoveCached(evicted);
    }

    /** A whole removal of one owner, with any direct lookups in between. */
    method RemoveDiscovery(s: Selector, between: seq<DirectLookup>)
      requires Valid() && pending == {}
      modifies this, store`entries
      ensures Valid() && pending == {} && View() == Remove(old(View()), s)
      ensures owners == old(owners) - {s}
      ensures forall m :: m in references <==> exists o :: o in owners && m in owners[o]
      ensures forall k :: k in store.entries && k.source.Discovery? ==>
                Member(k.service, k.endpoint) in references
                && k in old(store.entries) && store.entries[k] == old(store.entries)[k]
      ensures between == [] ==>
                forall k :: k in old(store.entries) ==>
                  if k.source.Discovery? && Member(k.service, k.endpoint) !in references then k !in store.entries
                  else k in store.entries && store.entries[k] == old(store.entries)[k]
    {
      var evicted := BeginRemove(s);
      ReferencedAfter(old(View()), s, {});
      ReferencedIffHeld(View());
      Interleave(between);
      RemoveCached(evicted);
    }

    /**
     * A discovered endpoint has one breaker: looked up by the identity of the selector it was discovered for, within
     * the idle limit and unless direct lookups in between have displaced it, it is found again.
     */
    method LookUpDiscovered(
        s: Selector, endpoints: seq<Text>, endpoint: Text, binding: Text,
        now: nat, between: seq<DirectLookup>, later: nat)
      returns (first: CircuitBreaker, displaced: bool, second: CircuitBreaker)
      requires Valid() && pending == {} && endpoint in endpoints
      modifies this, store`entries
      ensures Valid() && pending == {}
      ensures between == [] ==> !displaced
      ensures !displaced && Since(now, later) < store.idleEviction ==> first == second
      ensures var key := Key(Identity(s), binding, Discovery, endpoint);
              key in store.entries && store.entries[key].breaker == second
    {
      ReplaceDiscovery(s, endpoints, []);
      first := GetDiscovered(Identity(s), binding, endpoint, now);
      Interleave(between);
      displaced := Key(Identity(s), binding, Discovery, endpoint) !in store.entries;
      second := GetDiscovered(Identity(s), binding, endpoint, later);
    }
  }
}
