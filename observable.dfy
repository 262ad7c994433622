/**
 * ObservableDictionary: a dictionary that raises PropertyChanged("Count")
 * and a CollectionChanged event on every change, and that subscribes to the
 * PropertyChanged event of every value it holds (when the value type raises
 * one), forwarding a change of a value as a Replace event for its key.
 * Also the two ToObservableDictionary extension methods.
 */
module Observable {
  import opened Wrappers
  import opened Collections

  /** KeyValuePair<TKey, TValue>. */
  datatype Pair<K, V> = Pair(key: K, value: V)

  /** What the dictionary raises, in order. */
  datatype Notification<K, V> =
    | CountChanged                                         // PropertyChanged("Count")
    | Added(item: Pair<K, V>)                              // CollectionChanged Add
    | Replaced(newItem: Pair<K, V>, oldItem: Pair<K, V>)   // CollectionChanged Replace
    | Removed(item: Pair<K, V>)                            // CollectionChanged Remove
    | Reset                                                // CollectionChanged Reset
    /** The Replace event raised when a held value reports a change: the
        same pair twice; None stands for default(TKey), used when no entry
        holds the sender. */
    | Refreshed(key: Option<K>, value: V)

  predicate NoDuplicates<K(==)>(ks: seq<K>) {
    forall i, j :: 0 <= i < j < |ks| ==> ks[i] != ks[j]
  }

  /** The sequence with every occurrence of k dropped. */
  function Without<K(==)>(ks: seq<K>, k: K): (r: seq<K>)
    ensures forall x | x in r :: x in ks && x != k
    ensures forall x | x in ks && x != k :: x in r
    ensures |r| <= |ks|
  {
    if |ks| == 0 then []
    else if ks[0] == k then Without(ks[1..], k)
    else [ks[0]] + Without(ks[1..], k)
  }

  /** The position of the first key of ks whose entry in m is v; |ks| when
      there is none. */
  function FirstIndexOf<K, V(==)>(ks: seq<K>, m: map<K, V>, v: V): (i: nat)
    ensures i <= |ks|
    ensures forall j :: 0 <= j < i ==> !(ks[j] in m && m[ks[j]] == v)
    ensures i < |ks| ==> ks[i] in m && m[ks[i]] == v
  {
    if |ks| == 0 then 0
    else if ks[0] in m && m[ks[0]] == v then 0
    else 1 + FirstIndexOf(ks[1..], m, v)
  }

  // ---------------------------------------------------------------------
  // The wrapped Dictionary's layout
  // ---------------------------------------------------------------------

  /** The entries array of the wrapped .NET Dictionary up to its high-water
      mark, with None for a freed entry, and its free list, most recently
      freed entry first.  Enumeration walks the entries array in position
      order, so this layout decides the order of the keys. */
  datatype Slots<K> = Slots(entries: seq<Option<K>>, freeList: seq<nat>)

  /** The key an entry holds, as a sequence of zero or one keys. */
  function KeyOf<K>(entry: Option<K>): seq<K> {
    if entry.Some? then [entry.value] else []
  }

  /** The keys in enumeration order: the used entries, by position. */
  function Enumerate<K>(entries: seq<Option<K>>): seq<K>
    decreases |entries|
  {
    if |entries| == 0 then []
    else Enumerate(entries[..|entries| - 1]) + KeyOf(entries[|entries| - 1])
  }

  /** Each used entry holds a distinct key, the keys are exactly the given
      ones, and the free list lists every freed entry once. */
  ghost predicate SlotsValid<K>(s: Slots<K>, keys: set<K>) {
    && (forall i, j :: 0 <= i < j < |s.entries| && s.entries[i].Some? ==> s.entries[i] != s.entries[j])
    && (forall i | 0 <= i < |s.entries| && s.entries[i].Some? :: s.entries[i].value in keys)
    && (forall k {:trigger Some(k) in s.entries} | k in keys :: Some(k) in s.entries)
    && NoDuplicates(s.freeList)
    && (forall j | j in s.freeList :: j < |s.entries|)
    && (forall i | 0 <= i < |s.entries| :: s.entries[i].None? <==> i in s.freeList)
  }

  /** Where TryInsert puts a new key: in the most recently freed entry when
      there is one, else in a new entry after the last. */
  function Insert<K>(s: Slots<K>, key: K): (r: Slots<K>)
    requires forall j | j in s.freeList :: j < |s.entries|
    ensures |r.entries| == if |s.freeList| > 0 then |s.entries| else |s.entries| + 1
  {
    if |s.freeList| > 0 then
      assert s.freeList[0] in s.freeList;
      Slots(s.entries[s.freeList[0] := Some(key)], s.freeList[1..])
    else Slots(s.entries + [Some(key)], s.freeList)
  }

  /** The position of the entry holding the key. */
  function SlotOf<K(==)>(entries: seq<Option<K>>, key: K): (i: nat)
    requires Some(key) in entries
    ensures i < |entries| && entries[i] == Some(key)
    ensures forall j :: 0 <= j < i ==> entries[j] != Some(key)
  {
    if entries[0] == Some(key) then 0 else 1 + SlotOf(entries[1..], key)
  }

  /** What Remove does to the layout: the key's entry is freed and becomes
      the head of the free list. */
  function Free<K(==)>(s: Slots<K>, key: K): (r: Slots<K>)
    requires Some(key) in s.entries
    ensures |r.entries| == |s.entries| && |r.freeList| == |s.freeList| + 1
  {
    var i := SlotOf(s.entries, key);
    Slots(s.entries[i := None], [i] + s.freeList)
  }

  /** A key is enumerated exactly when some entry holds it. */
  lemma {:induction false} EnumerateHas<K>(entries: seq<Option<K>>, k: K)
    ensures k in Enumerate(entries) <==> Some(k) in entries
    decreases |entries|
  {
    if |entries| > 0 {
      var prefix := entries[..|entries| - 1];
      EnumerateHas(prefix, k);
      assert entries == prefix + [entries[|entries| - 1]];
    }
  }

  /** Distinct entries enumerate each key once. */
  lemma {:induction false} EnumerateDistinct<K>(entries: seq<Option<K>>)
    requires forall i, j :: 0 <= i < j < |entries| && entries[i].Some? ==> entries[i] != entries[j]
    ensures NoDuplicates(Enumerate(entries))
    decreases |entries|
  {
    if |entries| > 0 {
      var n := |entries| - 1;
      var prefix := entries[..n];
      EnumerateDistinct(prefix);
      if entries[n].Some? {
        EnumerateHas(prefix, entries[n].value);
      }
    }
  }

  /** With no freed entry, a new key is enumerated last. */
  lemma AppendWhenNoneFree<K>(s: Slots<K>, key: K)
    requires s.freeList == []
    ensures Enumerate(Insert(s, key).entries) == Enumerate(s.entries) + [key]
  {
    assert (s.entries + [Some(key)])[..|s.entries|] == s.entries;
  }

  lemma {:induction false} WithoutAppend<K>(a: seq<K>, b: seq<K>, k: K)
    ensures Without(a + b, k) == Without(a, k) + Without(b, k)
    decreases |a|
  {
    if |a| == 0 {
      assert a + b == b;
    } else {
      WithoutAppend(a[1..], b, k);
      assert (a + b)[0] == a[0];
      assert (a + b)[1..] == a[1..] + b;
    }
  }

  /** Freeing the only entry holding a key drops exactly that key from the
      enumeration and keeps the others in order. */
  lemma {:induction false} ClearEntryDropsKey<K>(entries: seq<Option<K>>, i: nat, key: K)
    requires i < |entries| && entries[i] == Some(key)
    requires forall j :: 0 <= j < |entries| && j != i ==> entries[j] != Some(key)
    ensures Enumerate(entries[i := None]) == Without(Enumerate(entries), key)
    decreases |entries|
  {
    var n := |entries| - 1;
    var prefix := entries[..n];
    var cleared := entries[i := None];
    assert Enumerate(entries) == Enumerate(prefix) + KeyOf(entries[n]);
    if i == n {
      assert cleared[..n] == prefix;
      assert Enumerate(cleared) == Enumerate(prefix);
      EnumerateHas(prefix, key);
      WithoutAbsent(Enumerate(prefix), key);
      WithoutAppend(Enumerate(prefix), [key], key);
    } else {
      assert cleared[..n] == prefix[i := None];
      assert Enumerate(cleared) == Enumerate(prefix[i := None]) + KeyOf(entries[n]);
      ClearEntryDropsKey(prefix, i, key);
      WithoutAppend(Enumerate(prefix), KeyOf(entries[n]), key);
    }
  }

  /** Inserting a new key keeps every other key in its enumeration
      position relative to the rest: taking the new key out again gives
      the old order.  Where the key lands is decided by the free list (see
      FreedEntryIsReused); only with no freed entry is it the last. */
  lemma InsertKeepsOthers<K>(s: Slots<K>, keys: set<K>, key: K)
    requires SlotsValid(s, keys) && key !in keys
    ensures key in Enumerate(Insert(s, key).entries)
    ensures Without(Enumerate(Insert(s, key).entries), key) == Enumerate(s.entries)
  {
    var r := Insert(s, key);
    EnumerateHas(r.entries, key);
    if |s.freeList| > 0 {
      var i := s.freeList[0];
      assert i in s.freeList;
      assert r.entries[i] == Some(key);
      assert r.entries[i := None] == s.entries;
      ClearEntryDropsKey(r.entries, i, key);
    } else {
      AppendWhenNoneFree(s, key);
      EnumerateHas(s.entries, key);
      WithoutAppend(Enumerate(s.entries), [key], key);
      WithoutAbsent(Enumerate(s.entries), key);
    }
  }

  /** Remove drops exactly the removed key from the enumeration. */
  lemma FreeDropsKey<K>(s: Slots<K>, keys: set<K>, key: K)
    requires SlotsValid(s, keys) && key in keys
    ensures Enumerate(Free(s, key).entries) == Without(Enumerate(s.entries), key)
  {
    ClearEntryDropsKey(s.entries, SlotOf(s.entries, key), key);
  }

  /** Removing an absent key leaves the enumeration as it is. */
  lemma AbsentKeyStays<K>(s: Slots<K>, keys: set<K>, key: K)
    requires SlotsValid(s, keys) && key !in keys
    ensures Without(Enumerate(s.entries), key) == Enumerate(s.entries)
  {
    EnumerateHas(s.entries, key);
    WithoutAbsent(Enumerate(s.entries), key);
  }

  lemma InsertValid<K, V>(s: Slots<K>, items: map<K, V>, key: K, value: V)
    requires SlotsValid(s, items.Keys) && key !in items
    ensures SlotsValid(Insert(s, key), items[key := value].Keys)
  {
    var keys := items.Keys;
    assert items[key := value].Keys == keys + {key};
    if |s.freeList| > 0 {
      assert s.freeList[0] in s.freeList;
      var r := Insert(s, key);
      forall j | j in r.freeList ensures j < |r.entries| {
        assert j in s.freeList;
      }
      forall i | 0 <= i < |r.entries| ensures r.entries[i].None? <==> i in r.freeList {
        assert i in s.freeList ==> i == s.freeList[0] || i in r.freeList;
      }
      forall k | k in keys + {key} ensures Some(k) in r.entries {
        if k != key {
          assert Some(k) in s.entries;
          var j :| 0 <= j < |s.entries| && s.entries[j] == Some(k);
          assert r.entries[j] == Some(k);
        } else {
          assert r.entries[s.freeList[0]] == Some(key);
        }
      }
    }
  }

  lemma FreeValid<K, V>(s: Slots<K>, items: map<K, V>, key: K)
    requires SlotsValid(s, items.Keys) && key in items
    ensures SlotsValid(Free(s, key), (items - {key}).Keys)
  {
    var keys := items.Keys;
    assert (items - {key}).Keys == keys - {key};
    var i := SlotOf(s.entries, key);
    var r := Free(s, key);
    assert r == Slots(s.entries[i := None], [i] + s.freeList);
    assert i !in s.freeList;
    forall k | k in keys - {key} ensures Some(k) in r.entries {
      assert Some(k) in s.entries;
      var j :| 0 <= j < |s.entries| && s.entries[j] == Some(k);
      assert r.entries[j] == Some(k);
    }
    forall j | j in r.freeList ensures j < |r.entries| {
      assert j == i || j in s.freeList;
    }
  }

  /** Remove keeps the layout valid and the subscriptions in step with the
      values. */
  lemma RemoveKeepsValid<K, V>(s: Slots<K>, items: map<K, V>, subscriptions: multiset<V>, notifying: bool, key: K)
    requires SlotsValid(s, items.Keys) && key in items
    requires subscriptions == if notifying then Values(items) else multiset{}
    ensures SlotsValid(Free(s, key), (items - {key}).Keys)
    ensures (if notifying then subscriptions - multiset{items[key]} else subscriptions)
         == (if notifying then Values(items - {key}) else multiset{})
  {
    FreeValid(s, items, key);
    ValuesRemove(items, key);
  }

  /** The layout after Add a, Add b, Remove a, Add c into a new dictionary:
      c reuses a's freed entry and is enumerated before b. */
  lemma FreedEntryIsReused<K>(a: K, b: K, c: K)
    requires a != b && b != c && a != c
    ensures Enumerate(Insert(Free(Insert(Insert(Slots([], []), a), b), a), c).entries) == [c, b]
  {
    var s2 := Insert(Insert(Slots([], []), a), b);
    assert s2.entries == [Some(a), Some(b)];
    assert Free(s2, a) == Slots([None, Some(b)], [0]);
    var s4 := Insert(Free(s2, a), c);
    assert s4.entries == [Some(c), Some(b)];
    assert s4.entries[..1] == [Some(c)];
    assert s4.entries[..1][..0] == [];
    assert Enumerate(s4.entries[..1]) == Enumerate(s4.entries[..1][..0]) + [c];
  }

  class ObservableDictionary<K(==), V(==)> {
    /** The entries. */
    var items: map<K, V>
    /** The wrapped Dictionary's entries array and free list. */
    var slots: Slots<K>
    /** The values whose PropertyChanged this dictionary is subscribed to,
        once per subscription. */
    ghost var subscriptions: multiset<V>
    /** Everything raised so far. */
    var log: seq<Notification<K, V>>
    /** Whether the value type implements INotifyPropertyChanged. */
    const notifying: bool

    /** The layout holds exactly the keys, and the dictionary is subscribed
        exactly once to each value it holds and to nothing else. */
    ghost predicate Valid()
      reads this
    {
      && SlotsValid(slots, items.Keys)
      && subscriptions == (if notifying then Values(items) else multiset{})
    }

    /** The keys in the order enumeration yields them. */
    function Order(): (ks: seq<K>)
      reads this
    {
      Enumerate(slots.entries)
    }

    constructor(notifying: bool)
      ensures Valid() && this.notifying == notifying
      ensures items == map[] && slots == Slots([], []) && log == []
    {
      items := map[];
      slots := Slots([], []);
      subscriptions := multiset{};
      log := [];
      this.notifying := notifying;
    }

    function ContainsKey(key: K): (b: bool)
      reads this
      ensures b <==> key in items
    {
      key in items
    }

    /** TryGetValue: the value under the key, None where the source returns
        false. */
    function TryGetValue(key: K): (r: Option<V>)
      reads this
      ensures r.Some? <==> key in items
      ensures r.Some? ==> items[key] == r.value
    {
      if key in items then Some(items[key]) else None
    }

    /** Contains(KeyValuePair): the key is present and holds that value. */
    function Contains(item: Pair<K, V>): (b: bool)
      reads this
      ensures b <==> TryGetValue(item.key) == Some(item.value)
    {
      item.key in items && items[item.key] == item.value
    }

    /** The indexer's setter: replaces the value in its entry, or adds the
        entry where Insert puts it, moving the subscription from the old
        value to the new one. */
    method Set(key: K, value: V)
      requires Valid()
      modifies this
      ensures Valid()
      ensures items == old(items)[key := value]
      ensures slots == if key in old(items) then old(slots) else Insert(old(slots), key)
      ensures log == old(log) + [CountChanged,
        if key in old(items) then Replaced(Pair(key, value), Pair(key, old(items)[key]))
        else Added(Pair(key, value))]
    {
      if key in items {
        var oldValue := items[key];
        if notifying {
          ValuesReplace(items, key, value);
          subscriptions := subscriptions - multiset{oldValue} + multiset{value};
        }
        items := items[key := value];
        log := log + [CountChanged, Replaced(Pair(key, value), Pair(key, oldValue))];
      } else {
        if notifying {
          ValuesAdd(items, key, value);
          subscriptions := subscriptions + multiset{value};
        }
        InsertValid(slots, items, key, value);
        slots := Insert(slots, key);
        items := items[key := value];
        log := log + [CountChanged, Added(Pair(key, value))];
      }
    }

    /** Add: does nothing when the key is already present. */
    method Add(key: K, value: V)
      requires Valid()
      modifies this
      ensures Valid()
      ensures key in old(items) ==>
        items == old(items) && slots == old(slots) && log == old(log)
      ensures key !in old(items) ==>
        && items == old(items)[key := value]
        && slots == Insert(old(slots), key)
        && log == old(log) + [CountChanged, Added(Pair(key, value))]
    {
      if key in items {
        return;
      }
      if notifying {
        ValuesAdd(items, key, value);
        subscriptions := subscriptions + multiset{value};
      }
      InsertValid(slots, items, key, value);
      slots := Insert(slots, key);
      items := items[key := value];
      log := log + [CountChanged, Added(Pair(key, value))];
    }

    /** Remove: true and the entry freed when the key was present. */
    method Remove(key: K) returns (removed: bool)
      requires Valid()
      modifies this
      ensures Valid()
      ensures removed <==> key in old(items)
      ensures items == old(items) - {key}
      ensures slots == if removed then Free(old(slots), key) else old(slots)
      ensures log == if removed
        then old(log) + [CountChanged, Removed(Pair(key, old(items)[key]))]
        else old(log)
    {
      if key !in items {
        return false;
      }
      var value := items[key];
      RemoveKeepsValid(slots, items, subscriptions, notifying, key);
      subscriptions := if notifying then subscriptions - multiset{value} else subscriptions;
      items, slots := items - {key}, Free(slots, key);
      log := log + [CountChanged, Removed(Pair(key, value))];
      return true;
    }

    /** Clear: unsubscribes from every held value and empties the
        dictionary, entries array and free list both. */
    method Clear()
      requires Valid()
      modifies this
      ensures Valid()
      ensures items == map[] && slots == Slots([], [])
      ensures log == old(log) + [CountChanged, Reset]
    {
      if notifying {
        subscriptions := subscriptions - Values(items);
      }
      items := map[];
      slots := Slots([], []);
      log := log + [CountChanged, Reset];
    }

    /** Value_PropertyChanged: finds the first enumerated key holding the
        sender and raises a Replace event for it. */
    method ValueChanged(sender: V)
      requires Valid()
      modifies this`log
      ensures var i := FirstIndexOf(Order(), items, sender);
        log == old(log) + [Refreshed(if i < |Order()| then Some(Order()[i]) else None, sender)]
    {
      var keys := Enumerate(slots.entries);
      var i := 0;
      while i < |keys| && !(keys[i] in items && items[keys[i]] == sender)
        invariant 0 <= i <= |keys|
        invariant forall j :: 0 <= j < i ==> !(keys[j] in items && items[keys[j]] == sender)
        decreases |keys| - i
      {
        i := i + 1;
      }
      FirstIndexIsFirst(keys, items, sender, i);
      var key := if i < |keys| then Some(keys[i]) else None;
      log := log + [Refreshed(key, sender)];
    }
  }

  lemma {:induction false} WithoutAbsent<K>(ks: seq<K>, k: K)
    requires k !in ks
    ensures Without(ks, k) == ks
  {
    if |ks| > 0 {
      WithoutAbsent(ks[1..], k);
      assert ks == [ks[0]] + ks[1..];
    }
  }

  /** An index before which no key holds v, and at which one does (or which
      is the end), is the one FirstIndexOf finds. */
  lemma {:induction false} FirstIndexIsFirst<K, V>(ks: seq<K>, m: map<K, V>, v: V, i: nat)
    requires i <= |ks|
    requires forall j :: 0 <= j < i ==> !(ks[j] in m && m[ks[j]] == v)
    requires i < |ks| ==> ks[i] in m && m[ks[i]] == v
    ensures FirstIndexOf(ks, m, v) == i
  {
    if i > 0 {
      assert !(ks[0] in m && m[ks[0]] == v);
      forall j | 0 <= j < i - 1 ensures !(ks[1..][j] in m && m[ks[1..][j]] == v) {
        assert ks[1..][j] == ks[j + 1];
      }
      FirstIndexIsFirst(ks[1..], m, v, i - 1);
    }
  }

  /** A value reporting a change while the dictionary is subscribed to it is
      always found under some key: the Replace event never carries the
      default key. */
  lemma SubscribedSenderIsFound<K, V>(d: ObservableDictionary<K, V>, sender: V)
    requires d.Valid() && sender in d.subscriptions
    ensures FirstIndexOf(d.Order(), d.items, sender) < |d.Order()|
  {
    assert d.notifying;
    ValuesMembers(d.items, sender);
    var k :| k in d.items && d.items[k] == sender;
    EnumerateHas(d.slots.entries, k);
    var i :| 0 <= i < |d.Order()| && d.Order()[i] == k;
    assert FirstIndexOf(d.Order(), d.items, sender) <= i;
  }

  /** The enumeration lists every key of a valid dictionary exactly once. */
  lemma OrderListsKeys<K, V>(d: ObservableDictionary<K, V>)
    requires d.Valid()
    ensures NoDuplicates(d.Order())
    ensures forall k :: k in d.Order() <==> k in d.items
  {
    EnumerateDistinct(d.slots.entries);
    forall k ensures k in d.Order() <==> k in d.items {
      EnumerateHas(d.slots.entries, k);
    }
  }

  // ---------------------------------------------------------------------
  // ToObservableDictionary
  // ---------------------------------------------------------------------

  /** The entries after adding the pairs in turn with Add: the first pair
      for each key wins. */
  function FirstWins<K(==), V>(source: seq<Pair<K, V>>): map<K, V>
    decreases |source|
  {
    if |source| == 0 then map[]
    else
      var m := FirstWins(source[..|source| - 1]);
      var p := source[|source| - 1];
      if p.key in m then m else m[p.key := p.value]
  }

  /** The keys in the order they were first seen. */
  function DistinctKeys<K(==), V>(source: seq<Pair<K, V>>): seq<K>
    decreases |source|
  {
    if |source| == 0 then []
    else
      var p := source[|source| - 1];
      var ks := DistinctKeys(source[..|source| - 1]);
      if p.key in FirstWins(source[..|source| - 1]) then ks else ks + [p.key]
  }

  /** The notifications raised while the pairs are added. */
  function AddLog<K(==), V>(source: seq<Pair<K, V>>): seq<Notification<K, V>>
    decreases |source|
  {
    if |source| == 0 then []
    else
      var p := source[|source| - 1];
      var log := AddLog(source[..|source| - 1]);
      if p.key in FirstWins(source[..|source| - 1]) then log
      else log + [CountChanged, Added(Pair(p.key, p.value))]
  }

  /** One more pair: it is added exactly when its key is new. */
  lemma AddStep<K, V>(source: seq<Pair<K, V>>, i: nat)
    requires i < |source|
    ensures var p, m := source[i], FirstWins(source[..i]);
      && FirstWins(source[..i + 1]) == (if p.key in m then m else m[p.key := p.value])
      && DistinctKeys(source[..i + 1]) == DistinctKeys(source[..i]) + (if p.key in m then [] else [p.key])
      && AddLog(source[..i + 1]) == AddLog(source[..i]) + (if p.key in m then [] else [CountChanged, Added(p)])
  {
    assert source[..i + 1][..i] == source[..i];
  }

  /** ToObservableDictionary(IEnumerable<KeyValuePair>): Add each pair in
      turn into a new dictionary. */
  method ToObservableDictionary<K(==), V(==)>(source: seq<Pair<K, V>>, notifying: bool)
    returns (d: ObservableDictionary<K, V>)
    ensures fresh(d) && d.Valid() && d.notifying == notifying
    ensures d.items == FirstWins(source)
    ensures d.Order() == DistinctKeys(source)
    ensures d.log == AddLog(source)
  {
    d := new ObservableDictionary(notifying);
    for i := 0 to |source|
      invariant d.Valid() && d.notifying == notifying
      invariant d.items == FirstWins(source[..i])
      invariant d.slots.freeList == [] && d.Order() == DistinctKeys(source[..i])
      invariant d.log == AddLog(source[..i])
    {
      AddStep(source, i);
      if source[i].key !in d.items {
        AppendWhenNoneFree(d.slots, source[i].key);
      }
      d.Add(source[i].key, source[i].value);
    }
    assert source[..|source|] == source;
  }

  /** The pairs (keySelector(v), v). */
  function Keyed<K, V>(source: seq<V>, keySelector: V -> K): (r: seq<Pair<K, V>>)
    ensures |r| == |source|
    ensures forall i :: 0 <= i < |source| ==> r[i] == Pair(keySelector(source[i]), source[i])
  {
    if |source| == 0 then []
    else
      var last := source[|source| - 1];
      Keyed(source[..|source| - 1], keySelector) + [Pair(keySelector(last), last)]
  }

  /** ToObservableDictionary(IEnumerable<TValue>, keySelector): Add each
      value under the key the selector gives it. */
  method ToObservableDictionaryBy<K(==), V(==)>(source: seq<V>, keySelector: V -> K, notifying: bool)
    returns (d: ObservableDictionary<K, V>)
    ensures fresh(d) && d.Valid() && d.notifying == notifying
    ensures d.items == FirstWins(Keyed(source, keySelector))
    ensures d.Order() == DistinctKeys(Keyed(source, keySelector))
    ensures d.log == AddLog(Keyed(source, keySelector))
  {
    var pairs := Keyed(source, keySelector);
    d := new ObservableDictionary(notifying);
    for i := 0 to |source|
      invariant d.Valid() && d.notifying == notifying
      invariant d.items == FirstWins(pairs[..i])
      invariant d.slots.freeList == [] && d.Order() == DistinctKeys(pairs[..i])
      invariant d.log == AddLog(pairs[..i])
    {
      AddStep(pairs, i);
      assert pairs[i] == Pair(keySelector(source[i]), source[i]);
      if keySelector(source[i]) !in d.items {
        AppendWhenNoneFree(d.slots, keySelector(source[i]));
      }
      d.Add(keySelector(source[i]), source[i]);
    }
    assert pairs[..|source|] == pairs;
  }

  /** The keys of the built dictionary are exactly the keys of the pairs. */
  lemma {:induction false} FirstWinsKeys<K, V>(source: seq<Pair<K, V>>, k: K)
    ensures k in FirstWins(source) <==> exists i :: 0 <= i < |source| && source[i].key == k
    decreases |source|
  {
    if |source| > 0 {
      var prefix := source[..|source| - 1];
      FirstWinsKeys(prefix, k);
      if exists i :: 0 <= i < |prefix| && prefix[i].key == k {
        var i :| 0 <= i < |prefix| && prefix[i].key == k;
        assert source[i].key == k;
      }
      if exists i :: 0 <= i < |source| && source[i].key == k {
        var i :| 0 <= i < |source| && source[i].key == k;
        if i < |prefix| {
          assert prefix[i].key == k;
        }
      }
    }
  }

  /** Each key holds the value of its first pair. */
  lemma {:induction false} FirstWinsFirst<K, V>(source: seq<Pair<K, V>>, i: nat)
    requires i < |source|
    requires forall j :: 0 <= j < i ==> source[j].key != source[i].key
    ensures source[i].key in FirstWins(source)
    ensures FirstWins(source)[source[i].key] == source[i].value
    decreases |source|
  {
    var prefix := source[..|source| - 1];
    if i < |prefix| {
      FirstWinsFirst(prefix, i);
    } else {
      FirstWinsKeys(prefix, source[i].key);
      forall j | 0 <= j < |prefix| ensures prefix[j].key != source[i].key {
        assert prefix[j] == source[j];
      }
    }
  }

  /** Every value in the built map came from a pair under the same key. */
  lemma {:induction false} FirstWinsFromSource<K, V>(source: seq<Pair<K, V>>, k: K)
    requires k in FirstWins(source)
    ensures Pair(k, FirstWins(source)[k]) in source
    decreases |source|
  {
    var prefix := source[..|source| - 1];
    if k in FirstWins(prefix) {
      FirstWinsFromSource(prefix, k);
      assert prefix <= source;
    }
  }

  /** Built with a key selector, every value sits under its own key. */
  lemma KeyedUnderOwnKey<K, V>(source: seq<V>, keySelector: V -> K, k: K)
    requires k in FirstWins(Keyed(source, keySelector))
    ensures keySelector(FirstWins(Keyed(source, keySelector))[k]) == k
  {
    FirstWinsFromSource(Keyed(source, keySelector), k);
  }

  /** The enumeration order lists each key of the built map exactly once. */
  lemma {:induction false} DistinctKeysAreKeys<K, V>(source: seq<Pair<K, V>>)
    ensures NoDuplicates(DistinctKeys(source))
    ensures forall k | k in DistinctKeys(source) :: k in FirstWins(source)
    ensures forall k | k in FirstWins(source) :: k in DistinctKeys(source)
    ensures |DistinctKeys(source)| <= |source|
    decreases |source|
  {
    if |source| > 0 {
      DistinctKeysAreKeys(source[..|source| - 1]);
    }
  }
}
