/**
 Hash maps whose collision chains run through the slot array itself. A new item goes into any empty slot and
 is linked behind its home slot, so chains of different home slots may merge.
 */
module CoalescedMap {
  import opened Wrappers
  import opened Arithmetic

  /** The `next` fields: one more than the index of the next slot of the chain, or 0. */
  type Links = seq<nat>

  // ---------- chains ----------

  /** Chains end: along them a measure goes down. */
  ghost predicate Falling(next: Links, dist: seq<nat>)
  {
    |dist| == |next| && forall i :: 0 <= i < |next| && next[i] != 0 ==> next[i] <= |next| && dist[next[i] - 1] < dist[i]
  }

  /** The slots of the chain from slot i on. */
  ghost function Chain(next: Links, dist: seq<nat>, i: nat): (c: set<nat>)
    requires Falling(next, dist) && i < |next|
    ensures i in c && forall j :: j in c ==> j < |next|
    decreases dist[i]
  {
    {i} + if next[i] == 0 then {} else Chain(next, dist, next[i] - 1)
  }

  /** Slot e, which nothing links to, is linked behind slot s. */
  function Inserted(next: Links, s: nat, e: nat): (r: Links)
    requires s < |next| && e < |next| && s != e
    ensures |r| == |next|
  {
    next[e := next[s]][s := e + 1]
  }

  /** Room for one more between a slot and the next one of its chain. */
  ghost function Spread(dist: seq<nat>, s: nat, e: nat): (r: seq<nat>)
    requires s < |dist| && e < |dist|
    ensures |r| == |dist| && forall i :: 0 <= i < |r| ==> r[i] == if i == e then 2 * dist[s] else 2 * dist[i] + 1
  {
    seq(|dist|, i requires 0 <= i < |dist| => if i == e then 2 * dist[s] else 2 * dist[i] + 1)
  }

  ghost predicate Unlinked(next: Links, e: nat)
  {
    e < |next| && next[e] == 0 && forall i :: 0 <= i < |next| ==> next[i] != e + 1
  }

  lemma InsertedFalls(next: Links, dist: seq<nat>, s: nat, e: nat)
    requires Falling(next, dist) && s < |next| && s != e && Unlinked(next, e)
    ensures Falling(Inserted(next, s, e), Spread(dist, s, e))
  {
  }

  /** Nothing leaves a chain, and the new slot joins the chain of s. */
  lemma {:induction false} ChainGrows(next: Links, dist: seq<nat>, s: nat, e: nat, i: nat)
    requires Falling(next, dist) && s < |next| && s != e && Unlinked(next, e) && i < |next|
    ensures Falling(Inserted(next, s, e), Spread(dist, s, e))
    ensures Chain(next, dist, i) <= Chain(Inserted(next, s, e), Spread(dist, s, e), i)
    ensures i == s ==> e in Chain(Inserted(next, s, e), Spread(dist, s, e), i)
    decreases dist[i]
  {
    hide Chain, Spread, Falling;
    InsertedFalls(next, dist, s, e);
    var next', dist' := Inserted(next, s, e), Spread(dist, s, e);
    ChainStep(next, dist, i);
    ChainStep(next', dist', i);
    if next[i] != 0 {
      NextFalls(next, dist, i);
      ChainGrows(next, dist, s, e, next[i] - 1);
    }
    if i == s {
      ChainStep(next', dist', e);
    }
  }

  lemma NextFalls(next: Links, dist: seq<nat>, i: nat)
    requires Falling(next, dist) && i < |next| && next[i] != 0
    ensures next[i] <= |next| && i < |dist| && next[i] - 1 < |dist| && dist[next[i] - 1] < dist[i]
  {
  }

  /** The measure tells the order along a chain. */
  lemma {:induction false} ChainBelow(next: Links, dist: seq<nat>, i: nat)
    requires Falling(next, dist) && i < |next|
    ensures |dist| == |next| && forall j :: j in Chain(next, dist, i) && j != i ==> dist[j] < dist[i]
    decreases dist[i]
  {
    if next[i] != 0 {
      ChainBelow(next, dist, next[i] - 1);
    }
  }

  lemma ChainStep(next: Links, dist: seq<nat>, i: nat)
    requires Falling(next, dist) && i < |next|
    ensures next[i] != 0 ==> next[i] - 1 < |next| && Chain(next, dist, i) == {i} + Chain(next, dist, next[i] - 1)
    ensures next[i] == 0 ==> Chain(next, dist, i) == {i}
  {
  }

  // ---------- tables ----------

  datatype Item<K> = Item(key: K, value: nat)

  /** The slots, as an array of items and an array of links. */
  datatype Table<K> = Table(items: seq<Option<Item<K>>>, next: Links)

  /** Every item is on the chain of its home slot. */
  ghost predicate Placed<K>(t: Table<K>, dist: seq<nat>, h: K -> nat)
  {
    && t.next != [] && |t.items| == |t.next| && Falling(t.next, dist)
    && forall i :: 0 <= i < |t.items| && t.items[i].Some? ==> i in Chain(t.next, dist, h(t.items[i].value.key) % |t.next|)
  }

  /** Links lead to full slots only, and empty slots have none. */
  ghost predicate Tidy<K>(t: Table<K>)
  {
    && |t.items| == |t.next|
    && (forall i :: 0 <= i < |t.next| && t.next[i] != 0 ==> t.next[i] <= |t.next| && t.items[t.next[i] - 1].Some?)
    && (forall i :: 0 <= i < |t.next| && t.items[i].None? ==> t.next[i] == 0)
  }

  ghost predicate Indexed<K>(t: Table<K>, dist: seq<nat>, h: K -> nat)
  {
    Placed(t, dist, h) && Tidy(t)
  }

  /** The table has exactly these items. A key that was inserted twice has two. */
  ghost predicate Has<K(!new)>(t: Table<K>, items: set<Item<K>>)
  {
    && (forall i :: 0 <= i < |t.items| && t.items[i].Some? ==> t.items[i].value in items)
    && (forall x :: x in items ==> exists i :: 0 <= i < |t.items| && t.items[i] == Some(x))
  }

  /** An answer to a query: the value of some item with the key, or none if there is no such item. */
  ghost predicate Answers<K(!new)>(answer: Option<nat>, items: set<Item<K>>, key: K)
  {
    match answer
    case Some(v) => Item(key, v) in items
    case None => forall v :: Item(key, v) !in items
  }

  /** No key has two values: the items are the map m. */
  ghost predicate IsMap<K(!new)>(items: set<Item<K>>, m: map<K, nat>)
  {
    forall key, v :: Item(key, v) in items <==> key in m && m[key] == v
  }

  /** With one value to a key, an answer is the answer of the map. */
  lemma AnswersMap<K(!new)>(answer: Option<nat>, items: set<Item<K>>, key: K, m: map<K, nat>)
    requires Answers(answer, items, key) && IsMap(items, m)
    ensures answer == if key in m then Some(m[key]) else None
  {
    if key in m {
      assert Item(key, m[key]) in items;
    }
  }

  /** All possible answers agree, for every key, if and only if no key has two values. */
  lemma AnswersUnique<K(!new)>(items: set<Item<K>>)
    ensures (forall key, a, b :: Answers(a, items, key) && Answers(b, items, key) ==> a == b) <==>
            (forall x, y :: x in items && y in items && x.key == y.key ==> x == y)
  {
    if x, y :| x in items && y in items && x.key == y.key && x != y {
      assert x == Item(x.key, x.value) && y == Item(x.key, y.value);
      assert Answers(Some(x.value), items, x.key) && Answers(Some(y.value), items, x.key);
    }
    forall key, a, b | Answers(a, items, key) && Answers(b, items, key) && a != b
      ensures exists x, y :: x in items && y in items && x.key == y.key && x != y
    {
      TwoAnswers(items, key, a, b);
    }
  }

  lemma TwoAnswers<K(!new)>(items: set<Item<K>>, key: K, a: Option<nat>, b: Option<nat>)
    requires Answers(a, items, key) && Answers(b, items, key) && a != b
    ensures a.Some? && b.Some? && Item(key, a.value) in items && Item(key, b.value) in items && Item(key, a.value) != Item(key, b.value)
  {
  }

  /** The item goes into its empty home slot. */
  function AtHome<K>(t: Table<K>, s: nat, item: Item<K>): (r: Table<K>)
    requires s < |t.items|
  {
    t.(items := t.items[s := Some(item)])
  }

  /** The item goes into the empty slot e, linked behind slot s. */
  function Behind<K>(t: Table<K>, s: nat, e: nat, item: Item<K>): (r: Table<K>)
    requires s < |t.next| && e < |t.next| && s != e && |t.items| == |t.next|
  {
    Table(t.items[e := Some(item)], Inserted(t.next, s, e))
  }

  lemma AtHomeIndexed<K>(t: Table<K>, dist: seq<nat>, h: K -> nat, item: Item<K>)
    requires Indexed(t, dist, h) && t.items[h(item.key) % |t.next|].None?
    ensures Indexed(AtHome(t, h(item.key) % |t.next|, item), dist, h)
  {
    hide Chain, Falling;
    var s := h(item.key) % |t.next|;
    assert Falling(t.next, dist);
    ChainStep(t.next, dist, s);
  }

  lemma HasMore<K(!new)>(t: Table<K>, t': Table<K>, items: set<Item<K>>, e: nat, item: Item<K>)
    requires Has(t, items) && e < |t.items| && t.items[e].None? && t'.items == t.items[e := Some(item)]
    ensures Has(t', items + {item})
  {
    assert t'.items[e] == Some(item);
    forall x | x in items
      ensures exists i :: 0 <= i < |t'.items| && t'.items[i] == Some(x)
    {
      var i :| 0 <= i < |t.items| && t.items[i] == Some(x);
      assert t'.items[i] == Some(x);
    }
  }

  lemma BehindTidy<K>(t: Table<K>, s: nat, e: nat, item: Item<K>)
    requires Tidy(t) && s < |t.next| && e < |t.next| && t.items[s].Some? && t.items[e].None?
    ensures Tidy(Behind(t, s, e, item)) && Unlinked(t.next, e)
  {
  }

  lemma SameLength(next: Links, dist: seq<nat>)
    requires Falling(next, dist)
    ensures |dist| == |next|
  {
  }

  lemma BehindIndexed<K>(t: Table<K>, dist: seq<nat>, h: K -> nat, e: nat, item: Item<K>)
    requires Indexed(t, dist, h) && t.items[h(item.key) % |t.next|].Some? && e < |t.next| && t.items[e].None?
    ensures Indexed(Behind(t, h(item.key) % |t.next|, e, item), Spread(dist, h(item.key) % |t.next|, e), h)
  {
    hide Chain, Falling, Spread, Tidy, Inserted;
    var s := h(item.key) % |t.next|;
    assert |dist| == |t.next| by { SameLength(t.next, dist); }
    var t', dist' := Behind(t, s, e, item), Spread(dist, s, e);
    BehindTidy(t, s, e, item);
    assert Tidy(t') && Unlinked(t.next, e);
    ChainGrows(t.next, dist, s, e, s);
    assert |t'.next| == |t.next|;
    forall i | 0 <= i < |t'.items| && t'.items[i].Some?
      ensures i in Chain(t'.next, dist', h(t'.items[i].value.key) % |t'.next|)
    {
      if i != e {
        ChainGrows(t.next, dist, s, e, h(t.items[i].value.key) % |t.next|);
      }
    }
  }

  // ---------- queries ----------

  predicate HasKey<K(==)>(t: Table<K>, i: nat, key: K)
  {
    i < |t.items| && t.items[i].Some? && t.items[i].value.key == key
  }

  /** The walk along the chain of the home slot: the first slot with the key, and one is found if there is any. */
  method FindSlot<K(==, !new)>(t: Table<K>, key: K, home: nat, ghost dist: seq<nat>, ghost h: K -> nat) returns (slot: Option<nat>)
    requires Indexed(t, dist, h) && home == h(key) % |t.next|
    ensures slot.Some? <==> exists j: nat :: HasKey(t, j, key)
    ensures slot.Some? ==> HasKey(t, slot.value, key)
    ensures home < |t.next| && (HasKey(t, home, key) ==> slot == Some(home))
    ensures |dist| == |t.items| && (slot.Some? ==> forall j: nat :: HasKey(t, j, key) && j != slot.value ==> dist[j] < dist[slot.value])
  {
    hide Chain, Falling, Tidy;
    var i: nat := home;
    SameLength(t.next, dist);
    while true
      invariant i < |t.next| == |dist| == |t.items|
      invariant forall j: nat :: HasKey(t, j, key) ==> j in Chain(t.next, dist, i)
      invariant HasKey(t, home, key) ==> i == home
      decreases dist[i]
    {
      ChainStep(t.next, dist, i);
      if t.items[i].Some? && t.items[i].value.key == key {
        assert HasKey(t, i, key);
        ChainBelow(t.next, dist, i);
        return Some(i);
      }
      if t.next[i] == 0 {
        return None;
      }
      NextFalls(t.next, dist, i);
      i := t.next[i] - 1;
    }
  }

  /** The value of a slot with the key. */
  method Query<K(==, !new)>(t: Table<K>, key: K, home: nat, ghost dist: seq<nat>, ghost h: K -> nat, ghost items: set<Item<K>>) returns (value: Option<nat>)
    requires Indexed(t, dist, h) && Has(t, items) && home == h(key) % |t.next|
    ensures Answers(value, items, key)
    ensures home < |t.items| && (HasKey(t, home, key) ==> value == Some(t.items[home].value.value))
  {
    hide Placed, Tidy;
    var slot := FindSlot(t, key, home, dist, h);
    NotEmpty(t, dist, h);
    if slot.Some? {
      value := Some(t.items[slot.value].value.value);
      assert t.items[slot.value].value == Item(key, value.value);
    } else {
      value := None;
      forall v
        ensures Item(key, v) !in items
      {
        assert forall j: nat :: j < |t.items| && t.items[j] == Some(Item(key, v)) ==> HasKey(t, j, key);
      }
    }
  }

  // ---------- free slots ----------

  /** The full slots. */
  ghost function FullSlots<K>(t: Table<K>): set<nat>
  {
    set i | 0 <= i < |t.items| && t.items[i].Some?
  }

  /** While there are fewer items than slots, some slot is empty. */
  lemma SomeEmpty<K>(t: Table<K>) returns (e: nat)
    requires |FullSlots(t)| < |t.items|
    ensures e < |t.items| && t.items[e].None?
  {
    var all := Below(|t.items|);
    assert FullSlots(t) != all;
    assert FullSlots(t) <= all;
    e :| e in all && e !in FullSlots(t);
  }

  lemma FilledSlots<K>(t: Table<K>, t': Table<K>, e: nat, item: Item<K>)
    requires e < |t.items| && t.items[e].None? && t'.items == t.items[e := Some(item)]
    ensures |FullSlots(t')| == |FullSlots(t)| + 1
  {
    assert FullSlots(t') == FullSlots(t) + {e};
  }

  /** The scan of map_si and map_ip, which goes on where the last one stopped: it stays in bounds. */
  method ScanUp<K>(t: Table<K>, empty: nat) returns (e: nat)
    requires |FullSlots(t)| < |t.items| && (forall i :: 0 <= i < empty && i < |t.items| ==> t.items[i].Some?)
    ensures empty <= e < |t.items| && t.items[e].None? && forall i :: 0 <= i < e ==> t.items[i].Some?
  {
    ghost var f := SomeEmpty(t);
    e := empty;
    while t.items[e].Some?
      invariant e <= f && forall i :: 0 <= i < e ==> t.items[i].Some?
      invariant empty <= e
      decreases f - e
    {
      e := e + 1;
    }
  }

  /** The scan of map_sp, from the slot behind the home slot round to it. */
  method ScanRound<K>(t: Table<K>, home: nat) returns (e: nat)
    requires |FullSlots(t)| < |t.items| && home < |t.items| && t.items[home].Some?
    ensures e < |t.items| && t.items[e].None? && e != home
  {
    var cap := |t.items|;
    ghost var f := SomeEmpty(t);
    ghost var steps := if f > home then f - home - 1 else f + cap - home - 1;
    e := if home + 1 == cap then 0 else home + 1;
    while t.items[e].Some?
      invariant e < cap && (if e <= f then steps == f - e else steps == f + cap - e)
      decreases steps
    {
      e := if e + 1 == cap then 0 else e + 1;
      steps := steps - 1;
    }
  }

  // ---------- building ----------

  /** An array of n empty slots. */
  function EmptyTable<K>(n: nat): (t: Table<K>)
    ensures |t.items| == |t.next| == n
  {
    Table(seq(n, _ => None), seq(n, _ => 0))
  }

  lemma EmptyIndexed<K(!new)>(n: nat, h: K -> nat)
    requires n > 0
    ensures Indexed(EmptyTable<K>(n), seq(n, _ => 0), h) && Has(EmptyTable<K>(n), {}) && FullSlots(EmptyTable<K>(n)) == {}
  {
  }

  /** The first k items of a list. */
  ghost function ItemsOf<K>(list: seq<Item<K>>, k: nat): set<Item<K>>
    requires k <= |list|
  {
    set i | 0 <= i < k :: list[i]
  }

  lemma ItemsNext<K>(list: seq<Item<K>>, k: nat)
    requires k < |list|
    ensures ItemsOf(list, k + 1) == ItemsOf(list, k) + {list[k]}
  {
  }

  /** The first k items of a list as a map, in which later items win. */
  ghost function Listed<K>(list: seq<Item<K>>, k: nat): map<K, nat>
    requires k <= |list|
  {
    if k == 0 then map[] else Listed(list, k - 1)[list[k - 1].key := list[k - 1].value]
  }

  ghost predicate DistinctKeys<K>(list: seq<Item<K>>)
  {
    forall i, j :: 0 <= i < j < |list| ==> list[i].key != list[j].key
  }

  /** Whatever keys repeat, the map answers for the items. */
  lemma {:induction false} ListedAnswers<K(!new)>(list: seq<Item<K>>, k: nat, key: K)
    requires k <= |list|
    ensures Answers(if key in Listed(list, k) then Some(Listed(list, k)[key]) else None, ItemsOf(list, k), key)
  {
    if k > 0 {
      ListedAnswers(list, k - 1, key);
      ItemsNext(list, k - 1);
    }
  }

  /** Without repeated keys the items of the list are the map. */
  lemma ListIsMap<K(!new)>(list: seq<Item<K>>)
    requires DistinctKeys(list)
    ensures IsMap(ItemsOf(list, |list|), Listed(list, |list|))
  {
    forall key, v
      ensures Item(key, v) in ItemsOf(list, |list|) <==> key in Listed(list, |list|) && Listed(list, |list|)[key] == v
    {
      ListedAnswers(list, |list|, key);
    }
  }

  /** What is known of a table under construction. */
  ghost predicate Building<K(!new)>(t: Table<K>, dist: seq<nat>, h: K -> nat, items: set<Item<K>>, n: nat)
  {
    Indexed(t, dist, h) && Has(t, items) && |FullSlots(t)| == n
  }

  /** One new item, into its home slot or into the empty slot e. */
  method Place<K(==, !new)>(t: Table<K>, s: nat, e: nat, item: Item<K>, ghost dist: seq<nat>, ghost h: K -> nat, ghost items: set<Item<K>>, ghost n: nat) returns (t': Table<K>, ghost dist': seq<nat>)
    requires Building(t, dist, h, items, n) && s == h(item.key) % |t.next|
    requires t.items[s].Some? ==> e < |t.items| && t.items[e].None?
    ensures Building(t', dist', h, items + {item}, n + 1)
    ensures |t'.next| == |t.next| == |t.items| == |dist| && t'.items == t.items[(if t.items[s].None? then s else e) := Some(item)]
    ensures if t.items[s].None? then t' == AtHome(t, s, item) && dist' == dist else s != e && t' == Behind(t, s, e, item) && dist' == Spread(dist, s, e)
  {
    hide Chain, Falling, Tidy, Has, FullSlots;
    if t.items[s].None? {
      t', dist' := AtHome(t, s, item), dist;
      SameLength(t.next, dist);
      AtHomeIndexed(t, dist, h, item);
      HasMore(t, t', items, s, item);
      FilledSlots(t, t', s, item);
    } else {
      t' := Behind(t, s, e, item);
      assert |dist| == |t.next| by { SameLength(t.next, dist); }
      dist' := Spread(dist, s, e);
      BehindIndexed(t, dist, h, e, item);
      HasMore(t, t', items, e, item);
      FilledSlots(t, t', e, item);
    }
  }

  // ---------- which item answers ----------

  predicate IsFirst<K(==)>(list: seq<Item<K>>, key: K, m: nat)
  {
    m < |list| && list[m].key == key && forall j :: 0 <= j < m ==> list[j].key != key
  }

  predicate IsLast<K(==)>(list: seq<Item<K>>, key: K, m: nat)
  {
    m < |list| && list[m].key == key && forall j :: m < j < |list| ==> list[j].key != key
  }

  /** Some slot has the item with index m. */
  ghost predicate Stored<K>(t: Table<K>, when: seq<nat>, m: nat)
    requires |when| == |t.items|
  {
    exists j :: 0 <= j < |t.items| && t.items[j].Some? && when[j] == m
  }

  /** In slot j is the item of the list with the index that `when` gives, and its home slot is full. */
  ghost predicate Stamped<K>(t: Table<K>, when: seq<nat>, h: K -> nat, list: seq<Item<K>>, n: nat)
    requires n <= |list|
  {
    && |when| == |t.items| == |t.next| && |t.items| > 0
    && (forall j: nat :: j < |t.items| && t.items[j].Some? ==> StampedSlot(t, when, h, list, n, j))
    && (forall m: nat :: m < n ==> Stored(t, when, m))
  }

  ghost predicate StampedSlot<K>(t: Table<K>, when: seq<nat>, h: K -> nat, list: seq<Item<K>>, n: nat, j: nat)
    requires n <= |list| && |when| == |t.items| && j < |t.items| && t.items[j].Some?
  {
    when[j] < n && t.items[j].value == list[when[j]] && t.items[h(t.items[j].value.key) % |t.items|].Some?
  }

  /** Slots j and l have the same key. If it is that of their home slot, the oldest is there; otherwise the newest comes first along the chain. */
  ghost predicate Aged<K(!new)>(t: Table<K>, dist: seq<nat>, when: seq<nat>, h: K -> nat, key: K, j: nat, l: nat)
    requires |when| == |t.items| == |dist| > 0
  {
    HasKey(t, j, key) && HasKey(t, l, key) ==>
      var s := h(key) % |t.items|;
      if HasKey(t, s, key) then when[s] <= when[j] else dist[j] > dist[l] ==> when[j] > when[l]
  }

  ghost predicate Dated<K(!new)>(t: Table<K>, dist: seq<nat>, when: seq<nat>, h: K -> nat, list: seq<Item<K>>, n: nat)
    requires n <= |list|
  {
    Stamped(t, when, h, list, n) && |dist| == |when| && forall key, j: nat, l: nat :: Aged(t, dist, when, h, key, j, l)
  }

  lemma DatedEmpty<K(!new)>(list: seq<Item<K>>, h: K -> nat)
    requires list != []
    ensures Dated(EmptyTable<K>(|list|), seq(|list|, _ => 0), seq(|list|, _ => 0), h, list, 0)
  {
  }

  lemma StoredNext<K>(t: Table<K>, t': Table<K>, when: seq<nat>, when': seq<nat>, n: nat, e: nat, item: Item<K>)
    requires |when| == |t.items| && e < |t.items| && t.items[e].None? && t'.items == t.items[e := Some(item)] && when' == when[e := n]
    requires forall m: nat :: m < n ==> Stored(t, when, m)
    ensures forall m: nat :: m < n + 1 ==> Stored(t', when', m)
  {
    assert t'.items[e].Some? && when'[e] == n;
    forall m: nat | m < n
      ensures Stored(t', when', m)
    {
      assert Stored(t, when, m);
      var j :| 0 <= j < |t.items| && t.items[j].Some? && when[j] == m;
      assert t'.items[j].Some? && when'[j] == m;
    }
  }

  lemma StampedNext<K(!new)>(t: Table<K>, t': Table<K>, when: seq<nat>, h: K -> nat, list: seq<Item<K>>, n: nat, e: nat)
    requires n < |list| && Stamped(t, when, h, list, n) && e < |t.items| && t.items[e].None? && t'.items == t.items[e := Some(list[n])] && |t'.next| == |t.next|
    requires t'.items[h(list[n].key) % |t.items|].Some?
    ensures Stamped(t', when[e := n], h, list, n + 1)
  {
    StoredNext(t, t', when, when[e := n], n, e, list[n]);
    hide Stored;
    forall j: nat | j < |t'.items| && t'.items[j].Some?
      ensures StampedSlot(t', when[e := n], h, list, n + 1, j)
    {
      assert j != e ==> StampedSlot(t, when, h, list, n, j);
    }
  }

  /** An item in its empty home slot is the first one of its key. */
  lemma DatedAtHome<K(!new)>(t: Table<K>, dist: seq<nat>, when: seq<nat>, h: K -> nat, list: seq<Item<K>>, n: nat)
    requires n < |list| && Dated(t, dist, when, h, list, n) && t.items[h(list[n].key) % |t.items|].None?
    ensures var s := h(list[n].key) % |t.items|; Dated(AtHome(t, s, list[n]), dist, when[s := n], h, list, n + 1)
  {
    var s := h(list[n].key) % |t.items|;
    var t', when' := AtHome(t, s, list[n]), when[s := n];
    StampedNext(t, t', when, h, list, n, s);
    forall key, j: nat, l: nat
      ensures Aged(t', dist, when', h, key, j, l)
    {
      assert Aged(t, dist, when, h, key, j, l);
    }
  }

  /** One pair of slots under DatedBehind: slot e is the first of the key behind its home slot s. */
  lemma AgedBehind<K(!new)>(t: Table<K>, t': Table<K>, dist: seq<nat>, dist': seq<nat>, when: seq<nat>, h: K -> nat, item: Item<K>, n: nat, e: nat, key: K, j: nat, l: nat)
    requires |when| == |t.items| == |dist| == |dist'| > 0 && e < |t.items| && t.items[e].None? && t'.items == t.items[e := Some(item)]
    requires Aged(t, dist, when, h, key, j, l) && Aged(t, dist, when, h, key, j, j)
    requires forall i :: 0 <= i < |dist'| ==> dist'[i] == if i == e then 2 * dist[h(item.key) % |t.items|] else 2 * dist[i] + 1
    requires forall i: nat :: HasKey(t, i, key) ==> when[i] < n && t.items[h(key) % |t.items|].Some?
    requires t.items[h(item.key) % |t.items|].Some?
    requires forall i: nat :: HasKey(t, i, item.key) && i != h(item.key) % |t.items| ==> dist[i] < dist[h(item.key) % |t.items|]
    ensures Aged(t', dist', when[e := n], h, key, j, l)
  {
    var s := h(key) % |t.items|;
    assert j != e ==> (HasKey(t', j, key) <==> HasKey(t, j, key));
    assert l != e ==> (HasKey(t', l, key) <==> HasKey(t, l, key));
    if HasKey(t', j, key) && HasKey(t', l, key) {
      assert s != e;
      assert HasKey(t', s, key) <==> HasKey(t, s, key);
    }
  }

  /** A displaced item is the newest one of its key, and comes first behind the home slot. */
  lemma DatedBehind<K(!new)>(t: Table<K>, dist: seq<nat>, when: seq<nat>, h: K -> nat, list: seq<Item<K>>, n: nat, e: nat)
    requires n < |list| && Dated(t, dist, when, h, list, n) && Indexed(t, dist, h) && e < |t.items| && t.items[e].None?
    requires t.items[h(list[n].key) % |t.items|].Some?
    ensures var s := h(list[n].key) % |t.items|; s != e && Dated(Behind(t, s, e, list[n]), Spread(dist, s, e), when[e := n], h, list, n + 1)
  {
    hide Chain, Falling, Inserted, Spread;
    var s := h(list[n].key) % |t.items|;
    var t', dist', when' := Behind(t, s, e, list[n]), Spread(dist, s, e), when[e := n];
    StampedNext(t, t', when, h, list, n, e);
    assert Falling(t.next, dist);
    ChainBelow(t.next, dist, s);
    hide Stamped, Placed, Tidy;
    forall key, j: nat, l: nat
      ensures Aged(t', dist', when', h, key, j, l)
    {
      assert Aged(t, dist, when, h, key, j, l) && Aged(t, dist, when, h, key, j, j);
      AgedBehind(t, t', dist, dist', when, h, list[n], n, e, key, j, l);
    }
  }

  /** The first free slot from slot i on. */
  function FreeFrom(full: seq<bool>, i: nat): (e: nat)
    requires i <= |full|
    ensures i <= e <= |full| && (e < |full| ==> !full[e]) && forall j :: i <= j < e ==> full[j]
    decreases |full| - i
  {
    if i < |full| && full[i] then FreeFrom(full, i + 1) else i
  }

  /** Which slots the first m items of the list fill: each its home slot if it is free, the lowest free slot otherwise. */
  function Filled<K>(list: seq<Item<K>>, h: K -> nat, m: nat): (full: seq<bool>)
    requires m <= |list|
    ensures |full| == |list|
  {
    if m == 0 then seq(|list|, _ => false) else
    var full := Filled(list, h, m - 1);
    var s := h(list[m - 1].key) % |list|;
    var e := if full[s] then FreeFrom(full, 0) else s;
    if e < |full| then full[e := true] else full
  }

  /** The first item of the key finds its home slot taken. */
  predicate Displaced<K>(list: seq<Item<K>>, h: K -> nat, key: K, first: nat)
    requires first < |list|
  {
    Filled(list, h, first)[h(key) % |list|]
  }

  ghost predicate FilledBy<K>(t: Table<K>, list: seq<Item<K>>, h: K -> nat, n: nat)
    requires n <= |list| == |t.items|
  {
    forall j :: 0 <= j < |list| ==> Filled(list, h, n)[j] == t.items[j].Some?
  }

  /** The home slot of a key has the key if and only if it was free when the first item of the key came. */
  ghost predicate Homed<K(!new)>(t: Table<K>, list: seq<Item<K>>, h: K -> nat, key: K, m: nat)
    requires |list| > 0
  {
    IsFirst(list, key, m) ==> (HasKey(t, h(key) % |list|, key) <==> !Displaced(list, h, key, m))
  }

  ghost predicate HomedBelow<K(!new)>(t: Table<K>, list: seq<Item<K>>, h: K -> nat, n: nat)
    requires |list| > 0
  {
    forall key, m: nat :: m < n ==> Homed(t, list, h, key, m)
  }

  lemma FilledNext<K>(t: Table<K>, t': Table<K>, list: seq<Item<K>>, h: K -> nat, n: nat, e: nat)
    requires n < |list| == |t.items| && FilledBy(t, list, h, n) && e < |list| && t.items[e].None? && t'.items == t.items[e := Some(list[n])]
    requires var s := h(list[n].key) % |list|; if t.items[s].None? then e == s else forall j :: 0 <= j < e ==> t.items[j].Some?
    ensures FilledBy(t', list, h, n + 1)
  {
    var full := Filled(list, h, n);
    var s := h(list[n].key) % |list|;
    if full[s] {
      var f := FreeFrom(full, 0);
      assert !full[e];
      assert f <= e;
      assert f < |full| && t.items[f].None?;
      assert f == e;
    }
    assert Filled(list, h, n + 1) == full[e := true];
  }

  /** The full home slot s keeps its item. */
  lemma HomedOld<K(!new)>(t: Table<K>, t': Table<K>, when: seq<nat>, list: seq<Item<K>>, h: K -> nat, n: nat, e: nat, key: K, m: nat)
    requires m < n < |list| == |t.items| && Stamped(t, when, h, list, n) && IsFirst(list, key, m) && Homed(t, list, h, key, m)
    requires e < |list| && t.items[e].None? && t'.items == t.items[e := Some(list[n])]
    ensures Homed(t', list, h, key, m)
  {
    hide Displaced, IsFirst;
    assert Stored(t, when, m);
    var j: nat :| j < |t.items| && t.items[j].Some? && when[j] == m;
    assert StampedSlot(t, when, h, list, n, j);
    assert list[m].key == key by { FirstKey(list, key, m); }
  }

  lemma FirstKey<K>(list: seq<Item<K>>, key: K, m: nat)
    requires IsFirst(list, key, m)
    ensures m < |list| && list[m].key == key
  {
  }

  /** The first item of its key goes into its home slot s or finds another key there. */
  lemma HomedNew<K(!new)>(t: Table<K>, t': Table<K>, when: seq<nat>, list: seq<Item<K>>, h: K -> nat, n: nat, e: nat, s: nat)
    requires n < |list| == |t.items| && FilledBy(t, list, h, n) && Stamped(t, when, h, list, n) && IsFirst(list, list[n].key, n)
    requires e < |list| && t.items[e].None? && t'.items == t.items[e := Some(list[n])] && s == h(list[n].key) % |list| && (t.items[s].None? ==> e == s)
    ensures Homed(t', list, h, list[n].key, n)
  {
    hide Filled;
    if t.items[s].Some? {
      assert StampedSlot(t, when, h, list, n, s);
    }
  }

  lemma HomedNext<K(!new)>(t: Table<K>, t': Table<K>, when: seq<nat>, list: seq<Item<K>>, h: K -> nat, n: nat, e: nat)
    requires n < |list| == |t.items| && FilledBy(t, list, h, n) && HomedBelow(t, list, h, n) && Stamped(t, when, h, list, n)
    requires e < |list| && t.items[e].None? && t'.items == t.items[e := Some(list[n])] && (t.items[h(list[n].key) % |list|].None? ==> e == h(list[n].key) % |list|)
    ensures HomedBelow(t', list, h, n + 1)
  {
    hide Displaced, FilledBy, Stamped;
    forall key, m: nat | m < n + 1 && IsFirst(list, key, m)
      ensures Homed(t', list, h, key, m)
    {
      if m < n {
        HomedOld(t, t', when, list, h, n, e, key, m);
      } else {
        HomedNew(t, t', when, list, h, n, e, h(key) % |list|);
      }
    }
  }

  /** The table and its history. */
  ghost predicate History<K(!new)>(t: Table<K>, dist: seq<nat>, when: seq<nat>, h: K -> nat, list: seq<Item<K>>, n: nat)
    requires n <= |list|
  {
    |list| == |t.items| > 0 && Dated(t, dist, when, h, list, n) && FilledBy(t, list, h, n) && HomedBelow(t, list, h, n)
  }

  lemma HistoryEmpty<K(!new)>(list: seq<Item<K>>, h: K -> nat)
    requires list != []
    ensures History(EmptyTable<K>(|list|), seq(|list|, _ => 0), seq(|list|, _ => 0), h, list, 0)
  {
    DatedEmpty(list, h);
  }

  lemma HistoryNext<K(!new)>(t: Table<K>, t': Table<K>, dist: seq<nat>, when: seq<nat>, h: K -> nat, list: seq<Item<K>>, n: nat, e: nat)
    requires n < |list| == |t.items| == |t.next| && History(t, dist, when, h, list, n) && Indexed(t, dist, h) && e < |t.items| && t.items[e].None?
    requires var s := h(list[n].key) % |list|; if t.items[s].None? then e == s && t' == AtHome(t, s, list[n])
             else t' == Behind(t, s, e, list[n]) && forall j :: 0 <= j < e ==> t.items[j].Some?
    ensures var s := h(list[n].key) % |list|; History(t', if t.items[s].None? then dist else Spread(dist, s, e), when[e := n], h, list, n + 1)
  {
    hide FilledBy, HomedBelow, Stamped, Aged, Indexed, Spread, Inserted, Filled;
    var s := h(list[n].key) % |list|;
    FilledNext(t, t', list, h, n, e);
    HomedNext(t, t', when, list, h, n, e);
    if t.items[s].None? {
      DatedAtHome(t, dist, when, h, list, n);
    } else {
      DatedBehind(t, dist, when, h, list, n, e);
    }
  }

  /**
   The slot that comes first along the chain has the last item of the key if the first one was displaced, and the
   first item otherwise.
   */
  lemma AnswerIndex<K(!new)>(t: Table<K>, dist: seq<nat>, when: seq<nat>, h: K -> nat, list: seq<Item<K>>, key: K, slot: nat, first: nat, last: nat)
    requires History(t, dist, when, h, list, |list|) && |dist| == |t.items| && HasKey(t, slot, key) && IsFirst(list, key, first) && IsLast(list, key, last)
    requires HasKey(t, h(key) % |list|, key) ==> slot == h(key) % |list|
    requires forall j: nat :: HasKey(t, j, key) && j != slot ==> dist[j] < dist[slot]
    ensures t.items[slot] == Some(list[if Displaced(list, h, key, first) then last else first])
  {
    hide Filled, FilledBy;
    var s := h(key) % |list|;
    assert Homed(t, list, h, key, first);
    assert list[when[slot]].key == key;
    if HasKey(t, s, key) {
      assert Stored(t, when, first);
      var j :| 0 <= j < |t.items| && t.items[j].Some? && when[j] == first;
      assert Aged(t, dist, when, h, key, j, j);
    } else {
      assert Stored(t, when, last);
      var j :| 0 <= j < |t.items| && t.items[j].Some? && when[j] == last;
      assert HasKey(t, j, key);
      assert Aged(t, dist, when, h, key, slot, j);
    }
  }

  /** What the walk answers for a list: nothing for a key that is not in it; otherwise an item that depends on whether the first one was displaced. */
  ghost predicate Picks<K(!new)>(answer: Option<nat>, list: seq<Item<K>>, h: K -> nat, key: K)
  {
    && (answer.None? <==> forall i :: 0 <= i < |list| ==> list[i].key != key)
    && forall first: nat, last: nat :: IsFirst(list, key, first) && IsLast(list, key, last) ==>
         answer == Some(list[if Displaced(list, h, key, first) then last else first].value)
  }

  /** _pbcM_si_query and the walk of _pbcM_ip_query. */
  method QueryBuilt<K(==, !new)>(t: Table<K>, key: K, home: nat, ghost dist: seq<nat>, ghost when: seq<nat>, ghost h: K -> nat, ghost list: seq<Item<K>>) returns (value: Option<nat>)
    requires Indexed(t, dist, h) && History(t, dist, when, h, list, |list|) && home == h(key) % |t.next|
    ensures Picks(value, list, h, key)
  {
    hide Placed, Tidy, Filled, FilledBy, HomedBelow, Aged, Displaced;
    var slot := FindSlot(t, key, home, dist, h);
    NotEmpty(t, dist, h);
    value := if slot.Some? then Some(t.items[slot.value].value.value) else None;
    forall i | 0 <= i < |list| && list[i].key == key
      ensures slot.Some?
    {
      assert Stored(t, when, i);
      var j: nat :| 0 <= j < |t.items| && t.items[j].Some? && when[j] == i;
      assert HasKey(t, j, key);
    }
    forall first: nat, last: nat | IsFirst(list, key, first) && IsLast(list, key, last)
      ensures value == Some(list[if Displaced(list, h, key, first) then last else first].value)
    {
      AnswerIndex(t, dist, when, h, list, key, slot.value, first, last);
    }
  }

  /** _pbcM_si_new and _pbcM_ip_new_hash: as many slots as items. Where the items are, and in which order along the chains, follows from the list. */
  method Build<K(==, !new)>(list: seq<Item<K>>, h: K -> nat) returns (t: Table<K>, ghost dist: seq<nat>, ghost when: seq<nat>)
    requires list != []
    ensures |t.next| == |t.items| == |list| && Indexed(t, dist, h) && Has(t, ItemsOf(list, |list|))
    ensures History(t, dist, when, h, list, |list|)
  {
    hide Chain, Falling, Tidy, Has, FullSlots, Placed, History;
    t := EmptyTable(|list|);
    dist, when := seq(|list|, _ => 0), seq(|list|, _ => 0);
    EmptyIndexed(|list|, h);
    HistoryEmpty(list, h);
    assert ItemsOf(list, 0) == {};
    var empty := 0;
    for i := 0 to |list|
      invariant |t.next| == |t.items| == |when| == |list| && Building(t, dist, h, ItemsOf(list, i), i)
      invariant forall j :: 0 <= j < empty && j < |t.items| ==> t.items[j].Some?
      invariant History(t, dist, when, h, list, i)
    {
      var s := h(list[i].key) % |list|;
      if t.items[s].Some? {
        empty := ScanUp(t, empty);
      }
      ItemsNext(list, i);
      ghost var e := if t.items[s].Some? then empty else s;
      ghost var was, wasDist := t, dist;
      t, dist := Place(t, s, empty, list[i], dist, h, ItemsOf(list, i), i);
      HistoryNext(was, t, wasDist, when, h, list, i, e);
      when := when[e := i];
    }
  }

  // ---------- map_ip ----------

  /** Numbers are kept in an array if they are small, in a hash table otherwise. */
  datatype IpMap = InArray(pointers: seq<Option<nat>>) | InHash(table: Table<int>)

  /** (unsigned) id. */
  function UnsignedId(id: int): nat
  {
    id % 0x1_0000_0000
  }

  /** The entries of the array are those of the map. */
  ghost predicate Entries(pointers: seq<Option<nat>>, m: map<int, nat>)
  {
    forall id :: (id in m ==> 0 <= id < |pointers| && pointers[id] == Some(m[id])) && (id !in m && 0 <= id < |pointers| ==> pointers[id].None?)
  }

  /** Built from the list: in the array the last item of a number wins, the hash table has all items. */
  ghost predicate IpFrom(ip: IpMap, dist: seq<nat>, when: seq<nat>, list: seq<Item<int>>)
  {
    match ip
    case InArray(pointers) => Entries(pointers, Listed(list, |list|))
    case InHash(table) => Indexed(table, dist, UnsignedId) && Has(table, ItemsOf(list, |list|)) && History(table, dist, when, UnsignedId, list, |list|)
  }

  /** The largest number, if all of them are small: at least 0 and at most twice the number of items. */
  method SmallMax(list: seq<Item<int>>) returns (max: Option<nat>)
    requires list != []
    ensures max.Some? <==> forall i :: 0 <= i < |list| ==> 0 <= list[i].key <= 2 * |list|
    ensures max.Some? ==> forall i :: 0 <= i < |list| ==> list[i].key <= max.value
  {
    var high := list[0].key;
    if high > |list| * 2 || high < 0 {
      return None;
    }
    for i := 1 to |list|
      invariant 0 <= high <= 2 * |list| && forall j :: 0 <= j < i ==> 0 <= list[j].key <= high
    {
      if list[i].key < 0 {
        return None;
      }
      if list[i].key > high {
        high := list[i].key;
        if high > |list| * 2 {
          return None;
        }
      }
    }
    return Some(high);
  }

  /** _pbcM_ip_new: the form depends on how small the numbers are. */
  method IpNew(list: seq<Item<int>>) returns (ip: IpMap, ghost dist: seq<nat>, ghost when: seq<nat>)
    requires list != []
    ensures IpFrom(ip, dist, when, list)
    ensures ip.InArray? <==> forall i :: 0 <= i < |list| ==> 0 <= list[i].key <= 2 * |list|
  {
    hide Indexed, Has, History;
    var max := SmallMax(list);
    dist, when := [], [];
    if max.None? {
      var table;
      table, dist, when := Build(list, UnsignedId);
      return InHash(table), dist, when;
    }
    var pointers: seq<Option<nat>> := seq(max.value + 1, _ => None);
    for i := 0 to |list|
      invariant |pointers| == max.value + 1 && Entries(pointers, Listed(list, i))
    {
      pointers := pointers[list[i].key := Some(list[i].value)];
    }
    return InArray(pointers), [], [];
  }

  /** In the map of the list is the last value of every key. */
  lemma {:induction false} ListedLast<K>(list: seq<Item<K>>, k: nat, key: K, last: nat)
    requires last < k <= |list| && list[last].key == key && forall j :: last < j < k ==> list[j].key != key
    ensures key in Listed(list, k) && Listed(list, k)[key] == list[last].value
  {
    if last < k - 1 {
      ListedLast(list, k - 1, key, last);
    }
  }

  lemma {:induction false} ListedKeys<K>(list: seq<Item<K>>, k: nat, key: K)
    requires k <= |list|
    ensures key in Listed(list, k) <==> exists i :: 0 <= i < k && list[i].key == key
  {
    if k > 0 {
      ListedKeys(list, k - 1, key);
    }
  }

  /**
   _pbcM_ip_query: both forms answer for the items of the list; if no number repeats, both give the answer of the map.
   The array always does; the hash form picks the first or the last item of the number.
   */
  method IpQuery(ip: IpMap, id: int, ghost dist: seq<nat>, ghost when: seq<nat>, ghost list: seq<Item<int>>) returns (value: Option<nat>)
    requires IpFrom(ip, dist, when, list)
    ensures Answers(value, ItemsOf(list, |list|), id)
    ensures DistinctKeys(list) ==> value == if id in Listed(list, |list|) then Some(Listed(list, |list|)[id]) else None
    ensures ip.InArray? ==> value == if id in Listed(list, |list|) then Some(Listed(list, |list|)[id]) else None
    ensures ip.InHash? ==> Picks(value, list, UnsignedId, id)
  {
    hide Indexed, Has, IsMap, Answers, Listed, ItemsOf, History, Picks;
    match ip {
      case InArray(pointers) =>
        value := if 0 <= id < |pointers| then pointers[id] else None;
        ListedAnswers(list, |list|, id);
      case InHash(table) =>
        NotEmpty(table, dist, UnsignedId);
        value := QueryBuilt(table, id, UnsignedId(id) % |table.next|, dist, when, UnsignedId, list);
        PicksAnswer(value, list, UnsignedId, id);
        if DistinctKeys(list) {
          ListIsMap(list);
          AnswersMap(value, ItemsOf(list, |list|), id, Listed(list, |list|));
        }
    }
  }

  /** The first and the last index of a key of the list. */
  lemma {:induction false} Ends<K>(list: seq<Item<K>>, key: K, k: nat) returns (first: nat, last: nat)
    requires k < |list| && list[k].key == key
    ensures IsFirst(list, key, first) && IsLast(list, key, last)
  {
    first, last := k, k;
    while exists j :: 0 <= j < first && list[j].key == key
      invariant first < |list| && list[first].key == key
      decreases first
    {
      var j :| 0 <= j < first && list[j].key == key;
      first := j;
    }
    while exists j :: last < j < |list| && list[j].key == key
      invariant last < |list| && list[last].key == key
      decreases |list| - last
    {
      var j :| last < j < |list| && list[j].key == key;
      last := j;
    }
  }

  lemma PicksAnswer<K(!new)>(answer: Option<nat>, list: seq<Item<K>>, h: K -> nat, key: K)
    requires Picks(answer, list, h, key)
    ensures Answers(answer, ItemsOf(list, |list|), key)
  {
    hide Displaced;
    if answer.Some? {
      var i :| 0 <= i < |list| && list[i].key == key;
      var first, last := Ends(list, key, i);
      var x := list[if Displaced(list, h, key, first) then last else first];
      assert x in ItemsOf(list, |list|) && x == Item(key, answer.value);
    }
  }

  /** The two forms agree on a number, if the list has it, exactly if its first item was displaced or its first and last values are equal. */
  ghost predicate Agree(list: seq<Item<int>>, id: int)
  {
    forall first: nat, last: nat :: IsFirst(list, id, first) && IsLast(list, id, last) ==>
      Displaced(list, UnsignedId, id, first) || list[first].value == list[last].value
  }

  lemma AgreeAt(list: seq<Item<int>>, id: int, first: nat, last: nat)
    requires IsFirst(list, id, first) && IsLast(list, id, last)
    ensures Agree(list, id) <==> Displaced(list, UnsignedId, id, first) || list[first].value == list[last].value
  {
    hide Displaced;
    forall f: nat, l: nat | IsFirst(list, id, f) && IsLast(list, id, l)
      ensures f == first && l == last
    {
    }
  }

  lemma AgreeExact(list: seq<Item<int>>, id: int, fromArray: Option<nat>, fromHash: Option<nat>)
    requires fromArray == if id in Listed(list, |list|) then Some(Listed(list, |list|)[id]) else None
    requires Picks(fromHash, list, UnsignedId, id)
    ensures fromArray == fromHash <==> Agree(list, id)
  {
    hide Displaced, Listed, Agree, IsFirst, IsLast;
    ListedKeys(list, |list|, id);
    if i :| 0 <= i < |list| && list[i].key == id {
      var first, last := Ends(list, id, i);
      LastHas(list, id, last);
      AgreeAt(list, id, first, last);
      assert fromHash == Some(list[if Displaced(list, UnsignedId, id, first) then last else first].value);
    } else {
      NoEnds(list, id);
    }
  }

  lemma LastHas(list: seq<Item<int>>, id: int, last: nat)
    requires IsLast(list, id, last)
    ensures id in Listed(list, |list|) && Listed(list, |list|)[id] == list[last].value
  {
    ListedLast(list, |list|, id, last);
  }

  lemma NoEnds(list: seq<Item<int>>, id: int)
    requires forall i :: 0 <= i < |list| ==> list[i].key != id
    ensures Agree(list, id)
  {
    hide Displaced;
  }

  /**
   A list that map_ip keeps in an array, and what the hash form would answer for it: the two agree on a number if and only
   if the list does not have it, its first item was displaced, or its first and last values are equal.
   */
  method FormsAgree(list: seq<Item<int>>, id: int) returns (fromArray: Option<nat>, fromHash: Option<nat>)
    requires list != [] && forall i :: 0 <= i < |list| ==> 0 <= list[i].key <= 2 * |list|
    ensures fromArray == if id in Listed(list, |list|) then Some(Listed(list, |list|)[id]) else None
    ensures Picks(fromHash, list, UnsignedId, id)
    ensures fromArray == fromHash <==> Agree(list, id)
  {
    hide Has, Indexed, Answers, Listed, History, Picks, Agree;
    var ip, dist, when := IpNew(list);
    fromArray := IpQuery(ip, id, dist, when, list);
    var table, links, times := Build(list, UnsignedId);
    fromHash := QueryBuilt(table, id, UnsignedId(id) % |table.next|, links, times, UnsignedId, list);
    AgreeExact(list, id, fromArray, fromHash);
  }

  /**
   They can differ: if the first and last items of a list have the same number, that number is in its home slot, and the
   array answers with its last value, the hash form with its first one.
   */
  method FormsDiffer(list: seq<Item<int>>) returns (fromArray: Option<nat>, fromHash: Option<nat>)
    requires |list| > 1 && list[0].key == list[|list| - 1].key && forall i :: 0 <= i < |list| ==> 0 <= list[i].key <= 2 * |list|
    ensures fromArray == Some(list[|list| - 1].value) && fromHash == Some(list[0].value)
  {
    hide Listed;
    fromArray, fromHash := FormsAgree(list, list[0].key);
    ListedLast(list, |list|, list[0].key, |list| - 1);
    assert IsFirst(list, list[0].key, 0) && IsLast(list, list[0].key, |list| - 1);
  }

  /** They can also agree on a number with two values: the first item of 4 finds 1 in its home slot. */
  lemma DisplacedAgrees(list: seq<Item<int>>)
    requires list == [Item(1, 100), Item(4, 200), Item(4, 300)]
    ensures Displaced(list, UnsignedId, 4, 1) && Agree(list, 4)
  {
  }

  lemma NotEmpty<K>(t: Table<K>, dist: seq<nat>, h: K -> nat)
    requires Indexed(t, dist, h)
    ensures t.next != [] && |t.items| == |t.next|
  {
  }

  // ---------- map_sp ----------

  /** The growing map. The mask hash & (cap-1) is a remainder, because the capacity is a power of two. */
  class SpMap<K(==, !new)> {
    const h: K -> nat
    var t: Table<K>
    var size: nat
    ghost var dist: seq<nat>
    ghost var items: set<Item<K>>
    ghost var lg: nat

    ghost predicate Valid()
      reads this
    {
      Building(t, dist, h, items, size) && |t.next| == Pow2(lg)
    }

    /** _pbcM_sp_new. */
    constructor (max: nat, h: K -> nat)
      ensures Valid() && items == {} && this.h == h && max <= |t.next|
    {
      var cap := 1;
      ghost var n := 0;
      while cap < max
        invariant cap == Pow2(n)
      {
        cap := cap * 2;
        n := n + 1;
      }
      this.h, t, size := h, EmptyTable(cap), 0;
      dist, items, lg := seq(cap, _ => 0), {}, n;
      new;
      EmptyIndexed(cap, h);
    }

    /** _pbcM_sp_query. */
    method SpQuery(key: K) returns (value: Option<nat>)
      requires Valid()
      ensures Answers(value, items, key)
    {
      hide Indexed, Has;
      NotEmpty(t, dist, h);
      value := Query(t, key, h(key) % |t.next|, dist, h, items);
    }

    /** The part of an insertion that has room: the new item is in the slot that is returned. */
    method PlaceNew(key: K, value: nat) returns (slot: nat)
      requires Valid() && size < |t.next|
      modifies this
      ensures Valid() && items == old(items) + {Item(key, value)} && size == old(size) + 1 && |t.next| == old(|t.next|)
      ensures slot < |t.items| && t.items[slot] == Some(Item(key, value))
    {
      hide Indexed, Has, FullSlots;
      NotEmpty(t, dist, h);
      slot := h(key) % |t.next|;
      var e := slot;
      if t.items[slot].Some? {
        e := ScanRound(t, slot);
      }
      var home := slot;
      slot := e;
      t, dist := Place(t, home, e, Item(key, value), dist, h, items, size);
      items := items + {Item(key, value)};
      size := size + 1;
    }

    /** _pbcM_sp_rehash of a full table: all items, in a table twice as large. */
    method Rehash()
      requires Valid() && size == |t.next|
      modifies this
      ensures Valid() && items == old(items) && size == old(size) && |t.next| == 2 * old(|t.next|)
    {
      hide Indexed, Has, FullSlots, ItemsOf;
      var from := t.items;
      NotEmpty(t, dist, h);
      AllFull(t);
      ghost var list := seq(|from|, i requires 0 <= i < |from| => from[i].value);
      FullList(t, items, list);
      t, size := EmptyTable(2 * |from|), 0;
      dist, items, lg := seq(2 * |from|, _ => 0), {}, lg + 1;
      EmptyIndexed(2 * |from|, h);
      NoItems(list);
      for i := 0 to |from|
        invariant Valid() && items == ItemsOf(list, i) && size == i && |t.next| == 2 * |from|
      {
        ItemsNext(list, i);
        var _ := PlaceNew(from[i].value.key, from[i].value.value);
      }
    }

    /** _pbcM_sp_insert: one item more, whether or not the map has the key already. */
    method SpInsert(key: K, value: nat)
      requires Valid()
      modifies this
      ensures Valid() && items == old(items) + {Item(key, value)}
    {
      hide Indexed, Has, FullSlots;
      NotEmpty(t, dist, h);
      SizeBound(t);
      if |t.next| <= size {
        Rehash();
      }
      var _ := PlaceNew(key, value);
    }

    /** _pbcM_sp_query_insert: a slot of the key, which is new, and empty-handed, if the map did not have it. */
    method SpQueryInsert(key: K) returns (slot: nat)
      requires Valid()
      modifies this
      ensures Valid() && HasKey(t, slot, key) && t.items[slot].value in items
      ensures items == if exists v: nat :: Item(key, v) in old(items) then old(items) else old(items) + {Item(key, 0)}
    {
      hide Indexed, FullSlots;
      NotEmpty(t, dist, h);
      SizeBound(t);
      var found := FindSlot(t, key, h(key) % |t.next|, dist, h);
      if found.Some? {
        assert t.items[found.value].value == Item(key, t.items[found.value].value.value);
        return found.value;
      }
      assert forall v, j: nat :: j < |t.items| && t.items[j] == Some(Item(key, v)) ==> HasKey(t, j, key);
      if |t.next| <= size {
        Rehash();
      }
      slot := PlaceNew(key, 0);
    }
  }

  lemma AllFull<K>(t: Table<K>)
    requires |FullSlots(t)| == |t.items|
    ensures forall i :: 0 <= i < |t.items| ==> t.items[i].Some?
  {
    var all := Below(|t.items|);
    SameSets(FullSlots(t), all);
    forall i | 0 <= i < |t.items|
      ensures t.items[i].Some?
    {
      assert i in FullSlots(t);
    }
  }

  lemma SameSets(a: set<nat>, b: set<nat>)
    requires a <= b && |a| == |b|
    ensures a == b
  {
    assert b == a + (b - a);
  }

  lemma SizeBound<K>(t: Table<K>)
    ensures |FullSlots(t)| <= |t.items|
  {
    var all := Below(|t.items|);
    assert all == FullSlots(t) + (all - FullSlots(t));
  }

  lemma NoItems<K>(list: seq<Item<K>>)
    ensures ItemsOf(list, 0) == {}
  {
  }

  /** A full table is the list of its items. */
  lemma FullList<K(!new)>(t: Table<K>, items: set<Item<K>>, list: seq<Item<K>>)
    requires Has(t, items) && |list| == |t.items| && forall i :: 0 <= i < |list| ==> t.items[i] == Some(list[i])
    ensures ItemsOf(list, |list|) == items
  {
    forall x | x in items
      ensures x in ItemsOf(list, |list|)
    {
      var i :| 0 <= i < |t.items| && t.items[i] == Some(x);
      assert list[i] == x;
    }
    assert forall i :: 0 <= i < |list| ==> t.items[i].value in items;
  }
}
