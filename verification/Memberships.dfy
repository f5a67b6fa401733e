/** The reference-counted index of discovered endpoints, and what changing one owner's endpoints does to it. */
module Memberships {
  import opened Prelude
  import opened Service

  /** An endpoint of a service identity; selectors that share the identity share the member. */
  datatype Member = Member(service: Text, endpoint: Text)

  /** The members behind a list of endpoints of one selector. */
  function MembersOf(s: Selector, endpoints: seq<Text>): set<Member> {
    set e | e in endpoints :: Member(Identity(s), e)
  }

  datatype Index = Index(owners: map<Selector, set<Member>>, references: map<Member, nat>)

  function Holders(owners: map<Selector, set<Member>>, m: Member): set<Selector> {
    set o | o in owners && m in owners[o]
  }

  /** A member is referenced exactly as often as owners hold it, and absent when none does. */
  ghost predicate Coherent(index: Index) {
    && (forall m :: m in index.references ==> index.references[m] == |Holders(index.owners, m)| > 0)
    && (forall o, m :: o in index.owners && m in index.owners[o] ==> m in index.references)
  }

  function Held(index: Index, o: Selector): set<Member> {
    if o in index.owners then index.owners[o] else {}
  }

  function Decremented(references: map<Member, nat>, members: set<Member>): map<Member, nat> {
    map m | m in references && (m !in members || references[m] > 1) ::
      if m in members then references[m] - 1 else references[m]
  }

  /** The members that lose their last reference. */
  function Evicted(references: map<Member, nat>, members: set<Member>): set<Member> {
    set m | m in members && m in references && references[m] <= 1
  }

  function Incremented(references: map<Member, nat>, members: set<Member>): map<Member, nat> {
    map m | m in references.Keys + members ::
      (if m in references then references[m] else 0) + (if m in members then 1 else 0)
  }

  /** One owner's members become `current`; members on both sides keep their count. */
  function Replace(index: Index, o: Selector, current: set<Member>): Index {
    var previous := Held(index, o);
    Index(index.owners[o := current],
          Incremented(Decremented(index.references, previous - current), current - previous))
  }

  function Remove(index: Index, o: Selector): Index {
    Index(index.owners - {o}, Decremented(index.references, Held(index, o)))
  }

  /** Holding a member or not is one owner's own affair. */
  lemma HoldersReplace(owners: map<Selector, set<Member>>, o: Selector, current: set<Member>, m: Member)
    ensures Holders(owners[o := current], m)
            == if m in current then Holders(owners, m) + {o} else Holders(owners, m) - {o}
  {
  }

  lemma HoldersRemove(owners: map<Selector, set<Member>>, o: Selector, m: Member)
    ensures Holders(owners - {o}, m) == Holders(owners, m) - {o}
  {
  }

  /** A set that contains some owner is not empty. */
  lemma HeldIsReferenced(index: Index, o: Selector, m: Member)
    requires Coherent(index)
    ensures m in Held(index, o) <==> o in Holders(index.owners, m)
    ensures m in Held(index, o) ==> m in index.references && |Holders(index.owners, m) - {o}| == index.references[m] - 1
    ensures m !in index.references ==> Holders(index.owners, m) == {}
  {
    if m !in index.references {
      forall p | p in index.owners ensures m !in index.owners[p] {}
    }
  }

  lemma ReplaceKeepsCoherent(index: Index, o: Selector, current: set<Member>)
    requires Coherent(index)
    ensures Coherent(Replace(index, o, current))
  {
    var after := Replace(index, o, current);
    forall m
      ensures m in after.references ==> after.references[m] == |Holders(after.owners, m)| > 0
      ensures m !in after.references ==> Holders(after.owners, m) == {}
    {
      HoldersReplace(index.owners, o, current, m);
      HeldIsReferenced(index, o, m);
      if m in Held(index, o) {
        assert Holders(index.owners, m) + {o} == Holders(index.owners, m);
      } else {
        assert Holders(index.owners, m) - {o} == Holders(index.owners, m);
      }
    }
    forall p, m | p in after.owners && m in after.owners[p] ensures m in after.references {
      assert p in Holders(after.owners, m);
    }
  }

  lemma RemoveKeepsCoherent(index: Index, o: Selector)
    requires Coherent(index)
    ensures Coherent(Remove(index, o))
  {
    var after := Remove(index, o);
    forall m
      ensures m in after.references ==> after.references[m] == |Holders(after.owners, m)| > 0
      ensures m !in after.references ==> Holders(after.owners, m) == {}
    {
      HoldersRemove(index.owners, o, m);
      HeldIsReferenced(index, o, m);
      if m !in Held(index, o) {
        assert Holders(index.owners, m) - {o} == Holders(index.owners, m);
      }
    }
    forall p, m | p in after.owners && m in after.owners[p] ensures m in after.references {
      assert p in Holders(after.owners, m);
    }
  }

  /** What is evicted is what the owner gave up and no other owner holds. */
  lemma EvictedIff(index: Index, o: Selector, dropped: set<Member>, m: Member)
    requires Coherent(index) && dropped <= Held(index, o)
    ensures m in Evicted(index.references, dropped) <==> m in dropped && Holders(index.owners, m) == {o}
  {
    HeldIsReferenced(index, o, m);
    if m in dropped && index.references[m] <= 1 {
      assert Holders(index.owners, m) == Holders(index.owners, m) - {o} + {o};
    }
  }

  /** A member of another owner is still referenced after one owner's change. */
  lemma OthersStayReferenced(index: Index, o: Selector, p: Selector, current: set<Member>, m: Member)
    requires Coherent(index) && p != o && m in Held(index, p)
    ensures m in Replace(index, o, current).references && m in Remove(index, o).references
    ensures m !in Evicted(index.references, Held(index, o)) && m !in Evicted(index.references, Held(index, o) - current)
  {
    ReplaceKeepsCoherent(index, o, current);
    RemoveKeepsCoherent(index, o);
    HeldIsReferenced(Replace(index, o, current), p, m);
    HeldIsReferenced(Remove(index, o), p, m);
    assert p in Holders(index.owners, m);
    EvictedIff(index, o, Held(index, o), m);
    EvictedIff(index, o, Held(index, o) - current, m);
  }

  /** Every member evicted by a change is unreferenced after it, and every other referenced member still is. */
  lemma ReferencedAfter(index: Index, o: Selector, current: set<Member>)
    requires Coherent(index)
    ensures Replace(index, o, current).references.Keys
            == index.references.Keys - Evicted(index.references, Held(index, o) - current) + current
    ensures Remove(index, o).references.Keys == index.references.Keys - Evicted(index.references, Held(index, o))
  {
    forall m | m in current && m in Held(index, o)
      ensures m in index.references
    {
      HeldIsReferenced(index, o, m);
    }
  }

  /** A member is referenced exactly when some owner holds it. */
  lemma ReferencedIffHeld(index: Index)
    requires Coherent(index)
    ensures forall m :: m in index.references <==> exists o :: o in index.owners && m in index.owners[o]
  {
    forall m | m in index.references ensures exists o :: o in index.owners && m in index.owners[o] {
      assert Holders(index.owners, m) != {};
      var o :| o in Holders(index.owners, m);
      assert o in index.owners && m in index.owners[o];
    }
  }
}
