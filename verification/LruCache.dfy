/** The LRU cache as the object the source updates: a map of list elements, the recency list and the expiry table
    (internal/cache/lru.go). Each method is one critical section; the clock is a parameter. */
module LruCache {
  import opened LruModel
  import opened Wrappers

  /** A list element, shared by the map and the recency list. */
  class Element<V> {
    const key: string
    var value: V

    constructor (key: string, value: V)
      ensures this.key == key && this.value == value
    {
      this.key, this.value := key, value;
    }
  }

  function ExpiryOf(ttls: map<string, int>, key: string): int {
    if key in ttls then ttls[key] else 0
  }

  ghost function SlotOf<V>(e: Element<V>, ttls: map<string, int>): Slot<V>
    reads e
  {
    Slot(e.key, e.value, ExpiryOf(ttls, e.key))
  }

  /** What a recency list stands for. */
  ghost function SlotsOf<V>(list: seq<Element<V>>, ttls: map<string, int>): Slots<V>
    reads list
  {
    if list == [] then [] else [SlotOf(list[0], ttls)] + SlotsOf(list[1..], ttls)
  }

  lemma {:induction false} SlotsAt<V(!new)>(list: seq<Element<V>>, ttls: map<string, int>)
    ensures |SlotsOf(list, ttls)| == |list|
    ensures forall i :: 0 <= i < |list| ==> SlotsOf(list, ttls)[i] == SlotOf(list[i], ttls)
  {
    if list != [] {
      SlotsAt(list[1..], ttls);
    }
  }

  /** Where a key stands in the list. */
  lemma FindKey<V(!new)>(list: seq<Element<V>>, ttls: map<string, int>, key: string)
    requires forall i, j :: 0 <= i < j < |list| ==> list[i].key != list[j].key
    ensures DistinctKeys(SlotsOf(list, ttls))
    ensures Has(SlotsOf(list, ttls), key) <==> exists i :: 0 <= i < |list| && list[i].key == key
    ensures forall i :: 0 <= i < |list| && list[i].key == key ==>
              Find(SlotsOf(list, ttls), key) == i && At(SlotsOf(list, ttls), key) == SlotOf(list[i], ttls)
  {
    SlotsAt(list, ttls);
    var s := SlotsOf(list, ttls);
    forall i | 0 <= i < |list| && list[i].key == key ensures Find(s, key) == i {
      assert s[i].key == key;
      assert Find(s, key) <= i;
    }
    if Has(s, key) {
      assert s[Find(s, key)].key == list[Find(s, key)].key;
    }
  }

  ghost predicate DistinctElements<V>(list: seq<Element<V>>) {
    forall i, j :: 0 <= i < j < |list| ==> list[i].key != list[j].key
  }

  lemma DistinctSame<V(!new)>(list: seq<Element<V>>, ttls: map<string, int>)
    ensures DistinctElements(list) <==> DistinctKeys(SlotsOf(list, ttls))
  {
    SlotsAt(list, ttls);
    var s := SlotsOf(list, ttls);
    if DistinctKeys(s) {
      forall i, j | 0 <= i < j < |list| ensures list[i].key != list[j].key {
        assert s[i].key != s[j].key;
      }
    }
  }

  /** list.Remove. */
  function RemoveElement<V>(list: seq<Element<V>>, e: Element<V>): seq<Element<V>> {
    if list == [] then []
    else if list[0] == e then list[1..]
    else [list[0]] + RemoveElement(list[1..], e)
  }

  lemma {:induction false} RemovedSlots<V(!new)>(list: seq<Element<V>>, e: Element<V>, ttls: map<string, int>)
    requires e in list && DistinctElements(list)
    ensures SlotsOf(RemoveElement(list, e), ttls) == Without(SlotsOf(list, ttls), e.key)
  {
    if list[0] == e {
      FindKey(list[1..], ttls, e.key);
      WithoutAbsent(SlotsOf(list[1..], ttls), e.key);
    } else {
      assert e in list[1..];
      assert list[0].key != e.key;
      RemovedSlots(list[1..], e, ttls);
      assert SlotsOf([list[0]] + RemoveElement(list[1..], e), ttls)[1..] ==
             SlotsOf(RemoveElement(list[1..], e), ttls) by {
        assert ([list[0]] + RemoveElement(list[1..], e))[1..] == RemoveElement(list[1..], e);
      }
    }
  }

  lemma RemovedDistinct<V(!new)>(list: seq<Element<V>>, e: Element<V>)
    requires e in list && DistinctElements(list)
    ensures DistinctElements(RemoveElement(list, e))
    ensures |RemoveElement(list, e)| == |list| - 1
  {
    var none: map<string, int> := map[];
    RemovedSlots(list, e, none);
    DistinctSame(list, none);
    DistinctSame(RemoveElement(list, e), none);
    SlotsAt(list, none);
    SlotsAt(RemoveElement(list, e), none);
    WithoutDistinct(SlotsOf(list, none), e.key);
    var k :| 0 <= k < |list| && list[k] == e;
    FindKey(list, none, e.key);
  }

  /** Expiries of keys that are not in the list do not matter. */
  lemma {:induction false} SlotsFrame<V(!new)>(list: seq<Element<V>>, ttls: map<string, int>, ttls': map<string, int>)
    requires forall i :: 0 <= i < |list| ==> ExpiryOf(ttls, list[i].key) == ExpiryOf(ttls', list[i].key)
    ensures SlotsOf(list, ttls) == SlotsOf(list, ttls')
  {
    if list != [] {
      SlotsFrame(list[1..], ttls, ttls');
    }
  }

  // ---------- agreement of map, list and expiry table ----------

  /** The map a list determines. */
  function ItemsOf<V>(list: seq<Element<V>>): map<string, Element<V>> {
    if list == [] then map[] else ItemsOf(list[1..])[list[0].key := list[0]]
  }

  /** The three tables hold the same keys, all different, and the map points to the list elements. */
  ghost predicate Linked<V>(items: map<string, Element<V>>, list: seq<Element<V>>, ttls: map<string, int>) {
    items == ItemsOf(list) && ttls.Keys == items.Keys && DistinctElements(list)
  }

  lemma {:induction false} ItemsLookup<V>(list: seq<Element<V>>, key: string)
    requires DistinctElements(list)
    ensures key in ItemsOf(list) ==> ItemsOf(list)[key] in list && ItemsOf(list)[key].key == key
    ensures key in ItemsOf(list) <==> exists i :: 0 <= i < |list| && list[i].key == key
    ensures forall i :: 0 <= i < |list| && list[i].key == key ==> ItemsOf(list)[key] == list[i]
  {
    if list != [] {
      ItemsLookup(list[1..], key);
      assert forall i :: 1 <= i < |list| ==> list[i] == list[1..][i-1];
      if list[0].key != key && key in ItemsOf(list[1..]) {
        var i :| 0 <= i < |list[1..]| && list[1..][i].key == key;
        assert list[i+1].key == key;
      }
    }
  }

  lemma {:induction false} ItemsSize<V>(list: seq<Element<V>>)
    requires DistinctElements(list)
    ensures |ItemsOf(list)| == |list|
  {
    if list != [] {
      ItemsSize(list[1..]);
      ItemsLookup(list[1..], list[0].key);
      assert forall i :: 0 <= i < |list[1..]| ==> list[1..][i].key != list[0].key;
    }
  }

  lemma FrontKey<V>(items: map<string, Element<V>>, list: seq<Element<V>>, ttls: map<string, int>)
    requires Linked(items, list, ttls) && |list| > 0
    ensures list[0].key in ttls && list[0] !in list[1..]
    ensures forall e :: e in list[1..] ==> e.key != list[0].key
  {
    ItemsLookup(list, list[0].key);
    forall e | e in list[1..] ensures e.key != list[0].key {
      var i :| 0 <= i < |list[1..]| && list[1..][i] == e;
      assert list[i+1] == e;
    }
  }

  lemma {:induction false} ItemsRemoved<V>(list: seq<Element<V>>, e: Element<V>)
    requires e in list && DistinctElements(list)
    ensures ItemsOf(RemoveElement(list, e)) == ItemsOf(list) - {e.key}
  {
    if list[0] == e {
      ItemsLookup(list[1..], e.key);
      assert forall i :: 0 <= i < |list[1..]| ==> list[1..][i].key != e.key;
    } else {
      assert e in list[1..];
      ItemsRemoved(list[1..], e);
      assert ([list[0]] + RemoveElement(list[1..], e))[1..] == RemoveElement(list[1..], e);
    }
  }

  lemma ConsDistinct<V>(e: Element<V>, list: seq<Element<V>>)
    requires DistinctElements(list) && e.key !in ItemsOf(list)
    ensures DistinctElements([e] + list)
  {
    ItemsLookup(list, e.key);
  }

  lemma LinkedMove<V(!new)>(items: map<string, Element<V>>, list: seq<Element<V>>, ttls: map<string, int>,
                            e: Element<V>)
    requires Linked(items, list, ttls) && e in list
    ensures Linked(items, [e] + RemoveElement(list, e), ttls)
  {
    var rest := RemoveElement(list, e);
    RemovedDistinct(list, e);
    ItemsRemoved(list, e);
    ConsDistinct(e, rest);
    ItemsLookup(list, e.key);
    var k :| 0 <= k < |list| && list[k] == e;
    assert ([e] + rest)[1..] == rest;
  }

  lemma LinkedRemove<V(!new)>(items: map<string, Element<V>>, list: seq<Element<V>>, ttls: map<string, int>,
                              key: string)
    requires Linked(items, list, ttls) && key in items
    ensures items[key] in list && items[key].key == key
    ensures Linked(items - {key}, RemoveElement(list, items[key]), ttls - {key})
  {
    ItemsLookup(list, key);
    RemovedDistinct(list, items[key]);
    ItemsRemoved(list, items[key]);
  }

  lemma LinkedPush<V>(items: map<string, Element<V>>, list: seq<Element<V>>, ttls: map<string, int>, e: Element<V>,
                      expiry: int)
    requires Linked(items, list, ttls) && e.key !in items
    ensures Linked(items[e.key := e], [e] + list, ttls[e.key := expiry])
  {
    ConsDistinct(e, list);
    assert ([e] + list)[1..] == list;
  }

  /** Every key of the list has an expiry. */
  lemma ListKeys<V>(items: map<string, Element<V>>, list: seq<Element<V>>, ttls: map<string, int>)
    requires Linked(items, list, ttls)
    ensures forall i :: 0 <= i < |list| ==> list[i].key in ttls
    ensures |items| == |list|
  {
    forall i | 0 <= i < |list| ensures list[i].key in ttls {
      ItemsLookup(list, list[i].key);
    }
    ItemsSize(list);
  }

  // ---------- cleanup in any order ----------

  /** The entries left when the expired ones have been removed of all keys but those of `todo`. */
  function FreshExcept<V>(s: Slots<V>, now: int, todo: set<string>): Slots<V> {
    if s == [] then []
    else if now > s[0].expiry && s[0].key !in todo then FreshExcept(s[1..], now, todo)
    else [s[0]] + FreshExcept(s[1..], now, todo)
  }

  lemma {:induction false} FreshExceptAll<V(!new)>(s: Slots<V>, now: int, todo: set<string>)
    requires forall x :: x in s ==> x.key in todo
    ensures FreshExcept(s, now, todo) == s
  {
    if s != [] {
      assert s[0] in s;
      FreshExceptAll(s[1..], now, todo);
    }
  }

  lemma {:induction false} FreshExceptNone<V(!new)>(s: Slots<V>, now: int)
    ensures FreshExcept(s, now, {}) == Fresh(s, now)
  {
    if s != [] {
      FreshExceptNone(s[1..], now);
    }
  }

  lemma {:induction false} FreshExceptStep<V(!new)>(s: Slots<V>, now: int, todo: set<string>, key: string)
    requires key in todo && DistinctKeys(s)
    ensures FreshExcept(s, now, todo - {key}) ==
            if Has(s, key) && now > At(s, key).expiry
                then Without(FreshExcept(s, now, todo), key) else FreshExcept(s, now, todo)
  {
    if s != [] {
      FreshExceptStep(s[1..], now, todo, key);
      if s[0].key == key {
        FreshExceptMembers(s[1..], now, todo);
        FewerKeys(s[1..], FreshExcept(s[1..], now, todo), key);
        WithoutAbsent(FreshExcept(s[1..], now, todo), key);
      }
    }
  }

  lemma {:induction false} FreshExceptMembers<V(!new)>(s: Slots<V>, now: int, todo: set<string>)
    ensures forall x :: x in FreshExcept(s, now, todo) <==> x in s && (now <= x.expiry || x.key in todo)
  {
    if s != [] {
      assert s == [s[0]] + s[1..];
      FreshExceptMembers(s[1..], now, todo);
    }
  }

  /** What the list stands for after a removal. */
  lemma RemovedContents<V(!new)>(items: map<string, Element<V>>, list: seq<Element<V>>, ttls: map<string, int>,
                                 key: string)
    requires Linked(items, list, ttls) && key in items
    ensures items[key] in list && |RemoveElement(list, items[key])| == |list| - 1
    ensures Linked(items - {key}, RemoveElement(list, items[key]), ttls - {key})
    ensures SlotsOf(RemoveElement(list, items[key]), ttls - {key}) == Without(SlotsOf(list, ttls), key)
  {
    var e := items[key];
    LinkedRemove(items, list, ttls, key);
    RemovedSlots(list, e, ttls);
    RemovedDistinct(list, e);
    ListKeys(items - {key}, RemoveElement(list, e), ttls - {key});
    SlotsFrame(RemoveElement(list, e), ttls, ttls - {key});
  }

  // ---------- the cache ----------

  class LRUCache<V(!new)> {
    const maxSize: nat
    const defaultTTL: int
    var items: map<string, Element<V>>
    var evictList: seq<Element<V>>
    var ttls: map<string, int>

    ghost predicate Valid()
      reads this
    {
      Linked(items, evictList, ttls) && |evictList| <= maxSize
    }

    ghost function Contents(): Slots<V>
      reads this, evictList
    {
      SlotsOf(evictList, ttls)
    }

    constructor (maxSize: nat, defaultTTL: int)
      ensures Valid() && Contents() == [] && this.maxSize == maxSize && this.defaultTTL == defaultTTL
    {
      this.maxSize, this.defaultTTL := maxSize, defaultTTL;
      items, evictList, ttls := map[], [], map[];
    }

    /** An indexed key and its entry. */
    lemma Looked(key: string)
      requires Linked(items, evictList, ttls)
      ensures DistinctKeys(Contents())
      ensures key in items <==> Has(Contents(), key)
      ensures key in items ==> items[key] in evictList && items[key].key == key
      ensures key in items ==> At(Contents(), key) == SlotOf(items[key], ttls)
    {
      FindKey(evictList, ttls, key);
      ItemsLookup(evictList, key);
    }

    /** Lines 91-106. */
    method Get(key: string, now: int) returns (r: Option<V>)
      requires Valid()
      modifies this
      ensures Valid()
      ensures Contents() == AfterGet(old(Contents()), key, now)
      ensures r == GetResult(old(Contents()), key, now)
    {
      Looked(key);
      if key in ttls && now > ttls[key] {
        RemoveKey(key);
        return None;
      }
      if key in items {
        var elem := items[key];
        MoveToFront(elem);
        return Some(elem.value);
      }
      return None;
    }

    /** evictList.MoveToFront. */
    method MoveToFront(elem: Element<V>)
      requires Linked(items, evictList, ttls) && elem in evictList
      modifies this`evictList
      ensures Linked(items, evictList, ttls) && |evictList| == old(|evictList|) && evictList[0] == elem
      ensures Contents() == [SlotOf(elem, ttls)] + Without(old(Contents()), elem.key)
    {
      LinkedMove(items, evictList, ttls, elem);
      RemovedSlots(evictList, elem, ttls);
      RemovedDistinct(evictList, elem);
      ghost var rest := RemoveElement(evictList, elem);
      evictList := [elem] + RemoveElement(evictList, elem);
      assert evictList[1..] == rest;
    }

    /** Lines 109-137; the ttl 0 stands for the default. */
    method Set(key: string, value: V, ttl0: int, now: int)
      requires Valid()
      modifies this, evictList
      ensures Valid()
      ensures Contents() == AfterSet(old(Contents()), maxSize,
                                     Slot(key, value, now + if ttl0 == 0 then defaultTTL else ttl0))
    {
      var ttl := ttl0;
      if ttl == 0 {
        ttl := defaultTTL;
      }
      Looked(key);
      if key in items {
        Overwrite(key, value, now + ttl);
        return;
      }
      PutNew(key, value, now + ttl);
    }

    /** Lines 127-134. */
    method PutNew(key: string, value: V, expiry: int)
      requires Valid() && key !in items
      modifies this
      ensures Valid() && Contents() == Front([Slot(key, value, expiry)] + old(Contents()), maxSize)
    {
      PushNew(key, value, expiry);
      EvictOverflow();
    }

    /** Lines 132-134: the loop stops as soon as the capacity is met. */
    method EvictOverflow()
      requires Linked(items, evictList, ttls)
      modifies this
      ensures Valid() && Contents() == Front(old(Contents()), maxSize)
    {
      ghost var full := Contents();
      SlotsAt(evictList, ttls);
      ListKeys(items, evictList, ttls);
      while |items| > maxSize
        invariant Linked(items, evictList, ttls) && |items| == |evictList| <= |full|
        invariant Contents() == full[..|evictList|]
        invariant |evictList| < |full| ==> maxSize <= |evictList|
      {
        EvictOldest();
      }
    }

    /** Lines 120-122. */
    method Overwrite(key: string, value: V, expiry: int)
      requires Linked(items, evictList, ttls) && key in items
      modifies this, evictList
      ensures Linked(items, evictList, ttls) && |evictList| == old(|evictList|)
      ensures Contents() == [Slot(key, value, expiry)] + Without(old(Contents()), key)
    {
      Looked(key);
      var elem := items[key];
      MoveToFront(elem);
      WriteFront(key, value, expiry);
    }

    /** The front element's value and expiry are replaced; the others keep theirs. */
    method WriteFront(key: string, value: V, expiry: int)
      requires Linked(items, evictList, ttls) && |evictList| > 0 && evictList[0].key == key
      modifies this`ttls, evictList[0]
      ensures Linked(items, evictList, ttls)
      ensures Contents() == [Slot(key, value, expiry)] + old(Contents())[1..]
    {
      ghost var rest := evictList[1..];
      FrontKey(items, evictList, ttls);
      SlotsFrame(rest, ttls, ttls[key := expiry]);
      evictList[0].value := value;
      ttls := ttls[key := expiry];
    }

    /** Lines 127-129. */
    method PushNew(key: string, value: V, expiry: int)
      requires Linked(items, evictList, ttls) && key !in items
      modifies this
      ensures Linked(items, evictList, ttls) && |evictList| == old(|evictList|) + 1
      ensures Contents() == [Slot(key, value, expiry)] + old(Contents())
    {
      var elem := new Element(key, value);
      LinkedPush(items, evictList, ttls, elem, expiry);
      PushedSlots(evictList, elem, ttls, expiry);
      evictList := [elem] + evictList;
      items := items[key := elem];
      ttls := ttls[key := expiry];
    }

    lemma PushedSlots(list: seq<Element<V>>, elem: Element<V>, table: map<string, int>, expiry: int)
      requires Linked(ItemsOf(list), list, table) && elem.key !in table
      ensures SlotsOf([elem] + list, table[elem.key := expiry]) ==
              [Slot(elem.key, elem.value, expiry)] + SlotsOf(list, table)
    {
      assert ([elem] + list)[1..] == list;
      ListKeys(ItemsOf(list), list, table);
      SlotsFrame(list, table, table[elem.key := expiry]);
    }

    /** Lines 140-146. */
    method Delete(key: string)
      requires Valid()
      modifies this
      ensures Valid()
      ensures Contents() == Without(old(Contents()), key)
    {
      RemoveKey(key);
    }

    /** Lines 149-157: the keys in any order. */
    method ClearAll()
      requires Valid()
      modifies this
      ensures Valid() && Contents() == []
    {
      var todo := items.Keys;
      while todo != {}
        invariant Valid() && items.Keys == todo
      {
        var key :| key in todo;
        RemoveKey(key);
        todo := todo - {key};
      }
      ListKeys(items, evictList, ttls);
      assert items == map[];
    }

    method Size() returns (n: nat)
      requires Valid()
      ensures n == |Contents()| <= maxSize
    {
      SlotsAt(evictList, ttls);
      ListKeys(items, evictList, ttls);
      n := |items|;
    }

    /** Lines 167-173: the victim is the last entry. */
    method EvictOldest()
      requires Linked(items, evictList, ttls) && |evictList| > 0
      modifies this
      ensures Linked(items, evictList, ttls) && |evictList| == |items| == old(|evictList|) - 1
      ensures Contents() == old(Contents())[..|old(Contents())|-1]
    {
      var elem := evictList[|evictList|-1];
      SlotsAt(evictList, ttls);
      WithoutLast(Contents());
      Looked(elem.key);
      ItemsLookup(evictList, elem.key);
      RemoveKey(elem.key);
      ListKeys(items, evictList, ttls);
    }

    /** removeElement and removeElementLocked (lines 176-197). */
    method RemoveKey(key: string)
      requires Linked(items, evictList, ttls)
      modifies this
      ensures Linked(items, evictList, ttls)
      ensures items == old(items) - {key} && ttls == old(ttls) - {key}
      ensures |evictList| == old(|evictList|) - (if key in old(items) then 1 else 0)
      ensures Contents() == Without(old(Contents()), key)
    {
      Looked(key);
      if key in items {
        var elem := items[key];
        RemovedContents(items, evictList, ttls, key);
        evictList := RemoveElement(evictList, elem);
        items := items - {key};
        ttls := ttls - {key};
      } else {
        WithoutAbsent(Contents(), key);
        NothingRemoved(items, key);
        NothingRemoved(ttls, key);
      }
    }

    /** One round of cleanupExpired (lines 205-212): the keys in any order. */
    method CleanupExpired(now: int)
      requires Valid()
      modifies this
      ensures Valid()
      ensures Contents() == Fresh(old(Contents()), now)
    {
      ghost var s := Contents();
      var todo := ttls.Keys;
      CleanupStart(s, now);
      while todo != {}
        invariant Valid() && todo <= ttls.Keys
        invariant forall k :: k in todo ==> Has(s, k) && At(s, k).expiry == ttls[k]
        invariant Contents() == FreshExcept(s, now, todo)
      {
        var key :| key in todo;
        FreshExceptStep(s, now, todo, key);
        if now > ttls[key] {
          RemoveKey(key);
        }
        todo := todo - {key};
      }
      FreshExceptNone(s, now);
    }

    lemma CleanupStart(s: Slots<V>, now: int)
      requires Linked(items, evictList, ttls) && s == Contents()
      ensures FreshExcept(s, now, ttls.Keys) == s && DistinctKeys(s)
      ensures forall k :: k in ttls ==> Has(s, k) && At(s, k).expiry == ttls[k]
    {
      SlotsAt(evictList, ttls);
      ListKeys(items, evictList, ttls);
      forall i | 0 <= i < |s| ensures s[i].key in ttls.Keys {}
      FreshExceptAll(s, now, ttls.Keys);
      Looked("");
      forall k | k in ttls ensures Has(s, k) && At(s, k).expiry == ttls[k] {
        Looked(k);
      }
    }
  }

  lemma NothingRemoved<T>(m: map<string, T>, k: string)
    requires k !in m
    ensures m - {k} == m
  {}

  /** With distinct keys, removing the key of the last entry removes just that entry. */
  lemma WithoutLast<V(!new)>(s: Slots<V>)
    requires s != []
    ensures DistinctKeys(s) ==> Without(s, s[|s|-1].key) == s[..|s|-1]
  {
    if DistinctKeys(s) {
      WithoutAt(s, |s| - 1);
      assert s[..|s|-1] + s[|s|..] == s[..|s|-1];
    }
  }
}
