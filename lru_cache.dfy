/**
 The LRU cache of test/main.go as a class that is updated in place.

 As in the source, the index `cache` maps each key to a handle on a list
 element, and the element (`Entry`) is shared between the index and the
 recency list `lruList`: `Put` on a present key writes the new value through
 that shared handle. The recency list (`container/list` in the source) is a
 sequence of handles, front first.
 */
module LruCache {
  import opened LruSpec

  /** The `entry` stored in a list element: its key is fixed, its value is overwritten by `Put`. */
  class Entry {
    const key: int
    var value: int

    constructor (key: int, value: int)
      ensures this.key == key && this.value == value
    {
      this.key := key;
      this.value := value;
    }
  }

  /** The (key, value) pairs that a sequence of handles currently holds. */
  ghost function View(l: seq<Entry>): (s: seq<Binding>)
    reads set e | e in l
    ensures |s| == |l|
    ensures forall i :: 0 <= i < |l| ==> s[i] == Binding(l[i].key, l[i].value)
  {
    seq(|l|, i requires 0 <= i < |l| reads set e | e in l => Binding(l[i].key, l[i].value))
  }

  /** Moving a handle to the front moves its binding to the front. */
  lemma ViewMoveToFront(l: seq<Entry>, i: nat)
    requires i < |l|
    ensures View(MoveToFront(l, i)) == MoveToFront(View(l), i)
  {
    var a, b := View(MoveToFront(l, i)), MoveToFront(View(l), i);
    assert |a| == |b|;
    forall j | 0 <= j < |a| ensures a[j] == b[j] {
      if j == 0 {} else if j <= i { assert MoveToFront(l, i)[j] == l[j - 1]; } else { assert MoveToFront(l, i)[j] == l[j]; }
    }
  }

  /** Pushing a handle at the front pushes its binding at the front. */
  lemma ViewPushFront(e: Entry, l: seq<Entry>)
    ensures View([e] + l) == [Binding(e.key, e.value)] + View(l)
  {
    var a, b := View([e] + l), [Binding(e.key, e.value)] + View(l);
    assert |a| == |b|;
    forall j | 0 <= j < |a| ensures a[j] == b[j] {
      if j > 0 { assert ([e] + l)[j] == l[j - 1]; }
    }
  }

  /** Dropping the back handle drops the back binding. */
  lemma ViewDropBack(l: seq<Entry>)
    requires l != []
    ensures View(l[..|l| - 1]) == View(l)[..|l| - 1]
  {
    var a, b := View(l[..|l| - 1]), View(l)[..|l| - 1];
    assert |a| == |b|;
    forall j | 0 <= j < |a| ensures a[j] == b[j] {
      assert l[..|l| - 1][j] == l[j];
    }
  }

  /** The position of a handle in the list; the source reaches it directly through the handle. */
  function IndexOf(l: seq<Entry>, e: Entry): (i: nat)
    requires e in l
    ensures i < |l| && l[i] == e
  {
    if l[0] == e then 0 else 1 + IndexOf(l[1..], e)
  }

  /**
   Writing a new value into the front element through its handle changes
   the front binding only, provided no other element is that handle.
   */
  twostate lemma OverwriteFront(l: seq<Entry>)
    requires l != [] && forall j :: 0 < j < |l| ==> l[j] != l[0] && unchanged(l[j])
    ensures View(l) == old(View(l))[0 := Binding(l[0].key, l[0].value)]
  {
    var now, was := View(l), old(View(l));
    forall j | 0 <= j < |l| ensures now[j] == was[0 := Binding(l[0].key, l[0].value)][j] {
    }
  }

  /**
   The index and the list agree: no key twice in the list, the index holds
   exactly the list's keys, and each key is indexed to its own element.
   */
  predicate Indexed(cache: map<int, Entry>, l: seq<Entry>)
  {
    && (forall i, j :: 0 <= i < j < |l| ==> l[i].key != l[j].key)
    && cache.Keys == (set i | 0 <= i < |l| :: l[i].key)
    && (forall i :: 0 <= i < |l| ==> l[i].key in cache && cache[l[i].key] == l[i])
  }

  /** Where `MoveToFront(l, i)` puts the element that was at position `j`. */
  function Moved(i: nat, j: nat): nat
  {
    if j < i then j + 1 else if j == i then 0 else j
  }

  /** Where the element at position `a` of `MoveToFront(l, i)` was before. */
  function Unmoved(i: nat, a: nat): nat
  {
    if a == 0 then i else if a <= i then a - 1 else a
  }

  /** Moving an element to the front keeps the keys distinct. */
  lemma {:induction false} MovedKeysDistinct(cache: map<int, Entry>, l: seq<Entry>, i: nat)
    requires Indexed(cache, l) && i < |l|
    ensures forall a, b :: 0 <= a < b < |MoveToFront(l, i)| ==> MoveToFront(l, i)[a].key != MoveToFront(l, i)[b].key
  {
    var r := MoveToFront(l, i);
    forall a, b | 0 <= a < b < |r| ensures r[a].key != r[b].key {
      assert r[a] == l[Unmoved(i, a)] && r[b] == l[Unmoved(i, b)];
    }
  }

  /** After moving an element to the front, the index still maps every key to its element. */
  lemma {:induction false} MovedStillIndexed(cache: map<int, Entry>, l: seq<Entry>, i: nat)
    requires Indexed(cache, l) && i < |l|
    ensures forall a :: 0 <= a < |MoveToFront(l, i)| ==>
              MoveToFront(l, i)[a].key in cache && cache[MoveToFront(l, i)[a].key] == MoveToFront(l, i)[a]
  {
    var r := MoveToFront(l, i);
    forall a | 0 <= a < |r| ensures r[a].key in cache && cache[r[a].key] == r[a] {
      assert r[a] == l[Unmoved(i, a)];
    }
  }

  /** After moving an element to the front, every indexed key is still listed. */
  lemma {:induction false} MovedKeysCovered(cache: map<int, Entry>, l: seq<Entry>, i: nat)
    requires Indexed(cache, l) && i < |l|
    ensures cache.Keys <= (set j | 0 <= j < |MoveToFront(l, i)| :: MoveToFront(l, i)[j].key)
  {
    var r := MoveToFront(l, i);
    forall k | k in cache ensures exists j :: 0 <= j < |r| && r[j].key == k {
      var j :| 0 <= j < |l| && l[j].key == k;
      assert r[Moved(i, j)] == l[j];
    }
  }

  /** Moving an element to the front keeps the set of elements. */
  lemma {:induction false} MovedSameElements(l: seq<Entry>, i: nat)
    requires i < |l|
    ensures (set e | e in MoveToFront(l, i)) == (set e | e in l)
  {
    var r := MoveToFront(l, i);
    forall e | e in l ensures e in r {
      var j :| 0 <= j < |l| && l[j] == e;
      assert r[Moved(i, j)] == e;
    }
    forall e | e in r ensures e in l {
      var a :| 0 <= a < |r| && r[a] == e;
      assert r[a] == l[Unmoved(i, a)];
    }
  }

  /** Moving an element to the front keeps the index consistent and the set of elements. */
  lemma {:induction false} IndexedMoveToFront(cache: map<int, Entry>, l: seq<Entry>, i: nat)
    requires Indexed(cache, l) && i < |l|
    ensures Indexed(cache, MoveToFront(l, i))
    ensures (set e | e in MoveToFront(l, i)) == (set e | e in l)
  {
    MovedKeysDistinct(cache, l, i);
    MovedStillIndexed(cache, l, i);
    MovedKeysCovered(cache, l, i);
    MovedSameElements(l, i);
  }

  /** Moving an element to the front keeps every element within a set that held them all. */
  lemma {:induction false} MoveToFrontWithin(l: seq<Entry>, i: nat, owned: set<Entry>)
    requires i < |l| && forall j :: 0 <= j < |l| ==> l[j] in owned
    ensures forall j :: 0 <= j < |l| ==> MoveToFront(l, i)[j] in owned
  {
    var r := MoveToFront(l, i);
    forall j | 0 <= j < |l| ensures r[j] in owned {
      assert r[j] == l[Unmoved(i, j)];
    }
  }

  /** Removing the back element from the list and its key from the index keeps them consistent. */
  lemma {:induction false} IndexedDropBack(cache: map<int, Entry>, l: seq<Entry>)
    requires Indexed(cache, l) && l != []
    ensures Indexed(cache - {l[|l| - 1].key}, l[..|l| - 1])
  {
    var n := |l| - 1;
    var c', r := cache - {l[n].key}, l[..n];
    assert c'.Keys == (set j | 0 <= j < |r| :: r[j].key) by {
      forall k | k in c' ensures exists j :: 0 <= j < |r| && r[j].key == k {
        var j :| 0 <= j < |l| && l[j].key == k;
        assert r[j] == l[j];
      }
    }
  }

  /** Pushing an element for an unlisted key keeps the keys of the list distinct. */
  lemma {:induction false} PushedKeysDistinct(cache: map<int, Entry>, l: seq<Entry>, e: Entry)
    requires Indexed(cache, l) && e.key !in cache
    ensures forall a, b :: 0 <= a < b < |l| + 1 ==> ([e] + l)[a].key != ([e] + l)[b].key
  {
    var r := [e] + l;
    forall a, b | 0 <= a < b < |r| ensures r[a].key != r[b].key {
      assert r[b] == l[b - 1];
      if a > 0 { assert r[a] == l[a - 1]; }
    }
  }

  /** After pushing and indexing a new element, the index holds exactly the listed keys. */
  lemma {:induction false} PushedKeysCovered(cache: map<int, Entry>, l: seq<Entry>, e: Entry)
    requires Indexed(cache, l)
    ensures cache[e.key := e].Keys == (set j | 0 <= j < |l| + 1 :: ([e] + l)[j].key)
  {
    var c', r := cache[e.key := e], [e] + l;
    forall k | k in c' ensures exists j :: 0 <= j < |r| && r[j].key == k {
      if k != e.key {
        var j :| 0 <= j < |l| && l[j].key == k;
        assert r[j + 1] == l[j];
      } else {
        assert r[0].key == k;
      }
    }
    forall j | 0 <= j < |r| ensures r[j].key in c' {
      if j > 0 { assert r[j] == l[j - 1]; }
    }
  }

  /** After pushing and indexing a new element for an unindexed key, the index maps every key to its element. */
  lemma {:induction false} PushedStillIndexed(cache: map<int, Entry>, l: seq<Entry>, e: Entry)
    requires Indexed(cache, l) && e.key !in cache
    ensures forall j :: 0 <= j < |l| + 1 ==>
      ([e] + l)[j].key in cache[e.key := e] && cache[e.key := e][([e] + l)[j].key] == ([e] + l)[j]
  {
    var c', r := cache[e.key := e], [e] + l;
    forall j | 0 <= j < |r| ensures r[j].key in c' && c'[r[j].key] == r[j] {
      if j > 0 {
        assert r[j] == l[j - 1];
        assert l[j - 1].key != e.key;
      }
    }
  }

  /** Pushing a new element for an unindexed key and indexing it keeps them consistent. */
  lemma {:induction false} IndexedPushFront(cache: map<int, Entry>, l: seq<Entry>, e: Entry)
    requires Indexed(cache, l) && e.key !in cache
    ensures Indexed(cache[e.key := e], [e] + l)
  {
    PushedKeysDistinct(cache, l, e);
    PushedKeysCovered(cache, l, e);
    PushedStillIndexed(cache, l, e);
  }

  /**
   The cache invariant on the cache's parts: a positive capacity that bounds
   the list, an index that agrees with the list, every element owned, and
   `contents` the bindings the elements currently hold.
   */
  ghost predicate Consistent(capacity: int, cache: map<int, Entry>, l: seq<Entry>,
                             owned: set<Entry>, contents: seq<Binding>)
    reads owned
  {
    && 0 < capacity
    && |l| <= capacity
    && Indexed(cache, l)
    && (forall i :: 0 <= i < |l| ==> l[i] in owned)
    && contents == View(l)
  }

  /** `MoveToFront` on the list and on its bindings keeps the invariant. */
  lemma {:induction false} ConsistentMoveToFront(capacity: int, cache: map<int, Entry>, l: seq<Entry>,
                                                 owned: set<Entry>, contents: seq<Binding>, i: nat)
    requires Consistent(capacity, cache, l, owned, contents) && i < |l|
    ensures Consistent(capacity, cache, MoveToFront(l, i), owned, MoveToFront(contents, i))
  {
    MoveToFrontWithin(l, i, owned);
    IndexedMoveToFront(cache, l, i);
    ViewMoveToFront(l, i);
  }

  /** Dropping the back element from the list, its key from the index and its binding keeps the invariant. */
  lemma {:induction false} ConsistentDropBack(capacity: int, cache: map<int, Entry>, l: seq<Entry>,
                                              owned: set<Entry>, contents: seq<Binding>)
    requires Consistent(capacity, cache, l, owned, contents) && l != []
    ensures Consistent(capacity, cache - {l[|l| - 1].key}, l[..|l| - 1], owned, contents[..|contents| - 1])
  {
    assert forall j :: 0 <= j < |l| - 1 ==> l[..|l| - 1][j] == l[j];
    IndexedDropBack(cache, l);
    ViewDropBack(l);
  }

  /** Pushing and indexing a new element for an absent key, with room left, keeps the invariant. */
  lemma {:induction false} ConsistentPushFront(capacity: int, cache: map<int, Entry>, l: seq<Entry>,
                                               owned: set<Entry>, contents: seq<Binding>, e: Entry)
    requires Consistent(capacity, cache, l, owned, contents) && e.key !in cache && |l| < capacity
    ensures Consistent(capacity, cache[e.key := e], [e] + l, owned + {e}, [Binding(e.key, e.value)] + contents)
  {
    PushFrontWithin(l, e, owned);
    IndexedPushFront(cache, l, e);
    ViewPushFront(e, l);
  }

  /** Pushing an element keeps every element within a set that held them all, once it holds the new one too. */
  lemma {:induction false} PushFrontWithin(l: seq<Entry>, e: Entry, owned: set<Entry>)
    requires forall j :: 0 <= j < |l| ==> l[j] in owned
    ensures forall j :: 0 <= j < |l| + 1 ==> ([e] + l)[j] in owned + {e}
  {
    forall j | 0 <= j < |l| + 1 ensures ([e] + l)[j] in owned + {e} {
      if j > 0 { assert ([e] + l)[j] == l[j - 1]; }
    }
  }

  class LRUCache {
    const capacity: int
    var cache: map<int, Entry>
    var lruList: seq<Entry>

    /** The entries the cache has allocated; every element of the list is one of them. */
    ghost var Repr: set<Entry>

    /** The recency list as values, front = most recently used. */
    ghost var Contents: seq<Binding>

    /**
     The cache invariant: a positive capacity that bounds the list, no key
     twice in the list, and the index maps exactly the list's keys to their
     own elements.
     */
    ghost predicate Valid()
      reads this, Repr
    {
      Consistent(capacity, cache, lruList, Repr, Contents)
    }

    /** `NewLRUCache`: an empty cache of the given (positive) capacity. */
    constructor NewLRUCache(capacity: int)
      requires capacity > 0
      ensures Valid() && this.capacity == capacity
      ensures Contents == [] && cache == map[] && Repr == {}
    {
      this.capacity := capacity;
      cache := map[];
      lruList := [];
      Repr := {};
      Contents := [];
    }

    /** The values of the list satisfy the value-level invariant. */
    lemma ContentsDistinct()
      requires Valid()
      ensures DistinctKeys(Contents) && |Contents| <= capacity
      ensures KeySet(Contents) == cache.Keys
    {
      var s := Contents;
      forall k | k in cache ensures k in KeySet(s) {
        var i := IndexOf(lruList, cache[k]);
        assert s[i].key == k;
      }
    }

    /**
     `lruList.MoveToFront(elem)` for the element at position `i`: the list is
     rotated, the index and the set of elements are untouched.
     */
    method MoveToFrontAt(i: nat)
      requires Valid() && i < |lruList|
      modifies this
      ensures Valid() && cache == old(cache) && Repr == old(Repr)
      ensures lruList == MoveToFront(old(lruList), i)
      ensures Contents == MoveToFront(old(Contents), i)
    {
      ghost var (l, s) := (lruList, Contents);
      lruList := MoveToFront(lruList, i);
      Contents := MoveToFront(Contents, i);
      ConsistentMoveToFront(capacity, cache, l, Repr, s, i);
    }

    /**
     The eviction of `Put`: `lruList.Remove(back)` and `delete(cache, key)` for
     the back element of a full list.
     */
    method EvictBack()
      requires Valid() && lruList != []
      modifies this
      ensures Valid() && |lruList| == |old(lruList)| - 1
      ensures Repr == old(Repr)
      ensures Contents == old(Contents)[..|old(Contents)| - 1]
      ensures cache.Keys == old(cache.Keys) - {old(lruList[|lruList| - 1].key)}
    {
      ghost var (c, l, s) := (cache, lruList, Contents);
      var back := lruList[|lruList| - 1];
      lruList := lruList[..|lruList| - 1];
      cache := cache - {back.key};
      Contents := Contents[..|Contents| - 1];
      ConsistentDropBack(capacity, c, l, Repr, s);
    }

    /**
     The insertion of `Put`: `lruList.PushFront(&entry{key, value})` and
     `cache[key] = newElem` for a key that is not cached, with room left.
     */
    method PushFront(key: int, value: int)
      requires Valid() && key !in cache && |lruList| < capacity
      modifies this
      ensures Valid() && fresh(Repr - old(Repr))
      ensures Contents == [Binding(key, value)] + old(Contents)
      ensures cache.Keys == old(cache.Keys) + {key}
    {
      ghost var (c, l, o, s) := (cache, lruList, Repr, Contents);
      var newElem := new Entry(key, value);
      lruList := [newElem] + lruList;
      cache := cache[key := newElem];
      Repr := Repr + {newElem};
      Contents := [Binding(key, value)] + Contents;
      ConsistentPushFront(capacity, c, l, o, s, newElem);
    }

    /**
     `Get`: a hit returns the stored value and moves the entry to the front,
     a miss returns (-1, false) and changes nothing; the index is untouched.
     */
    method Get(key: int) returns (value: int, found: bool)
      requires Valid()
      modifies this
      ensures Valid() && cache == old(cache) && Repr == old(Repr)
      ensures (value, found) == Lookup(old(Contents), key)
      ensures Contents == AfterGet(old(Contents), key)
      ensures !found ==> lruList == old(lruList)
    {
      ContentsDistinct();
      if key in cache {
        var elem := cache[key];
        var i := IndexOf(lruList, elem);
        FindDistinct(Contents, i);
        MoveToFrontAt(i);
        return elem.value, true;
      }
      return -1, false;
    }

    /**
     The in-place write `elem.Value.(*entry).value = value` on the element
     that `Put` has just moved to the front: only the front binding changes.
     */
    method WriteFront(value: int)
      requires Valid() && lruList != []
      modifies this, lruList[0]
      ensures lruList == old(lruList) && cache == old(cache) && Repr == old(Repr)
      ensures Valid() && lruList[0].value == value
      ensures Contents == old(Contents)[0 := Binding(lruList[0].key, value)]
    {
      assert forall j :: 0 < j < |lruList| ==> lruList[j] != lruList[0] by {
        forall j | 0 < j < |lruList| ensures lruList[j] != lruList[0] {
          assert lruList[j].key != lruList[0].key;
        }
      }
      lruList[0].value := value;
      OverwriteFront(lruList);
      Contents := Contents[0 := Binding(lruList[0].key, value)];
    }

    /**
     The first branch of `Put`: a cached key is moved to the front and its
     value is overwritten in place through the handle the index shares with
     the list.
     */
    method PutExisting(key: int, value: int)
      requires Valid() && key in cache
      modifies this, cache[key]
      ensures Valid() && Repr == old(Repr)
      ensures Contents == AfterPut(old(Contents), capacity, key, value)
    {
      ContentsDistinct();
      ghost var s := Contents;
      var elem := cache[key];
      var i := IndexOf(lruList, elem);
      FindDistinct(s, i);
      MoveToFrontAt(i);
      assert lruList[0] == elem;
      WriteFront(value);
    }

    /**
     The second branch of `Put`: when the list is full its back element is
     evicted, then a new element is pushed at the front and indexed.
     */
    method PutNew(key: int, value: int)
      requires Valid() && key !in cache
      modifies this
      ensures Valid() && fresh(Repr - old(Repr))
      ensures Contents == AfterPut(old(Contents), capacity, key, value)
    {
      ContentsDistinct();
      ghost var s := Contents;
      assert Find(s, key) == None;
      if |lruList| == capacity {
        if lruList != [] {
          EvictBack();
        }
      }
      assert Contents == if |s| == capacity && s != [] then s[..|s| - 1] else s;
      PushFront(key, value);
    }

    /** `Put`: overwrite and refresh a cached key, otherwise insert it, evicting when full. */
    method Put(key: int, value: int)
      requires Valid()
      modifies this, if key in cache then {cache[key]} else {}
      ensures Valid() && fresh(Repr - old(Repr))
      ensures Contents == AfterPut(old(Contents), capacity, key, value)
    {
      if key in cache {
        PutExisting(key, value);
      } else {
        PutNew(key, value);
      }
    }
  }

  /**
   The trace in `main`: capacity 2; Put(1,1), Put(2,2), Get(1) hits;
   Put(3,3) evicts 2; Put(4,4) evicts 1; then 3 and 4 hit.
   */
  method MainTrace() returns (get1: (int, bool), get2: (int, bool), get3: (int, bool),
                              get4: (int, bool), get5: (int, bool))
    ensures get1 == (1, true)
    ensures get2 == (-1, false)
    ensures get3 == (-1, false)
    ensures get4 == (3, true)
    ensures get5 == (4, true)
  {
    var cache := new LRUCache.NewLRUCache(2);
    cache.ContentsDistinct();
    PutIntoEmpty(cache.Contents, 2, 1, 1);
    cache.Put(1, 1);
    cache.ContentsDistinct();
    PutIntoSingle(cache.Contents, 2, 2);
    cache.Put(2, 2);
    GetFromPair(cache.Contents, 1);
    var v1, f1 := cache.Get(1);
    get1 := (v1, f1);
    cache.ContentsDistinct();
    PutIntoFullPair(cache.Contents, 3, 3);
    cache.Put(3, 3);
    GetFromPair(cache.Contents, 2);
    var v2, f2 := cache.Get(2);
    get2 := (v2, f2);
    cache.ContentsDistinct();
    PutIntoFullPair(cache.Contents, 4, 4);
    cache.Put(4, 4);
    GetFromPair(cache.Contents, 1);
    var v3, f3 := cache.Get(1);
    get3 := (v3, f3);
    GetFromPair(cache.Contents, 3);
    var v4, f4 := cache.Get(3);
    get4 := (v4, f4);
    GetFromPair(cache.Contents, 4);
    var v5, f5 := cache.Get(4);
    get5 := (v5, f5);
  }
}
