/**
 Value-level specification of the LRU cache in test/main.go.

 The recency list is a sequence of bindings, front (index 0) = most recently
 touched, back (last index) = next eviction candidate. `AfterGet` and
 `AfterPut` say what the list looks like after the cache's `Get` and `Put`;
 the lemmas below state what the cache promises about them.
 */
module LruSpec {

  datatype Option<T> = None | Some(value: T)

  /** The (key, value) pair that one list element holds (`entry` in the source). */
  datatype Binding = Binding(key: int, value: int)

  /** The set of keys present in a recency list. */
  function KeySet(s: seq<Binding>): set<int>
  {
    set i | 0 <= i < |s| :: s[i].key
  }

  /** No key occurs twice in the list. */
  predicate DistinctKeys(s: seq<Binding>)
  {
    forall i, j :: 0 <= i < j < |s| ==> s[i].key != s[j].key
  }

  /** Position of the first binding of key `k`, if any. */
  function Find(s: seq<Binding>, k: int): (r: Option<nat>)
    ensures r.Some? ==> r.value < |s| && s[r.value].key == k
    ensures r.Some? ==> forall j :: 0 <= j < r.value ==> s[j].key != k
    ensures r.None? <==> k !in KeySet(s)
  {
    if s == [] then None
    else if s[0].key == k then Some(0)
    else
      match Find(s[1..], k)
      case None =>
        assert KeySet(s) == {s[0].key} + KeySet(s[1..]) by {
          assert forall i :: 1 <= i < |s| ==> s[i].key == s[1..][i - 1].key;
          assert forall i :: 0 <= i < |s| - 1 ==> s[1..][i].key == s[i + 1].key;
        }
        None
      case Some(i) => Some(i + 1)
  }

  /**
   `list.MoveToFront` on the element at position `i`: that element becomes
   the front, the ones before it shift back by one, the ones after it stay.
   */
  function MoveToFront<T>(s: seq<T>, i: nat): (r: seq<T>)
    requires i < |s|
    ensures |r| == |s| && r[0] == s[i]
    ensures forall j :: 0 < j <= i ==> r[j] == s[j - 1]
    ensures forall j :: i < j < |s| ==> r[j] == s[j]
  {
    [s[i]] + s[..i] + s[i + 1..]
  }

  /** Moving an element to the front only permutes the list. */
  lemma {:induction false} MoveToFrontPermutes<T>(s: seq<T>, i: nat)
    requires i < |s|
    ensures multiset(MoveToFront(s, i)) == multiset(s)
  {
    assert s == s[..i] + [s[i]] + s[i + 1..];
  }

  /** What `Get(k)` returns for the list `s`. */
  function Lookup(s: seq<Binding>, k: int): (r: (int, bool))
    ensures r.1 <==> k in KeySet(s)
    ensures r.1 ==> Binding(k, r.0) in s
    ensures !r.1 ==> r.0 == -1
  {
    match Find(s, k)
    case Some(i) => (s[i].value, true)
    case None => (-1, false)
  }

  /** The list after `Get(k)`: a hit moves to the front, a miss changes nothing. */
  function AfterGet(s: seq<Binding>, k: int): (r: seq<Binding>)
    ensures multiset(r) == multiset(s)
    ensures k in KeySet(s) ==> |r| > 0 && r[0].key == k
    ensures k !in KeySet(s) ==> r == s
  {
    match Find(s, k)
    case Some(i) => MoveToFrontPermutes(s, i); MoveToFront(s, i)
    case None => s
  }

  /**
   The list after `Put(k, v)` on a cache of the given capacity, as the source
   computes it for ANY integer capacity: a present key is moved to the front
   and overwritten; otherwise, when the length equals the capacity and there
   is a back element, that element is dropped, and the new binding is pushed
   at the front.
   */
  function AfterPut(s: seq<Binding>, capacity: int, k: int, v: int): (r: seq<Binding>)
    ensures |r| > 0 && r[0] == Binding(k, v)
    ensures k in KeySet(s) ==> |r| == |s|
    ensures k !in KeySet(s) && |s| == capacity && s != [] ==> |r| == |s|
    ensures k !in KeySet(s) && (|s| != capacity || s == []) ==> |r| == |s| + 1
  {
    match Find(s, k)
    case Some(i) => MoveToFront(s, i)[0 := Binding(k, v)]
    case None =>
      if |s| == capacity && s != [] then [Binding(k, v)] + s[..|s| - 1]
      else [Binding(k, v)] + s
  }

  /** In a list with distinct keys, `Find` locates each element at its own position. */
  lemma {:induction false} FindDistinct(s: seq<Binding>, i: nat)
    requires DistinctKeys(s) && i < |s|
    ensures Find(s, s[i].key) == Some(i)
  {
  }

  /** A miss on `Get` returns (-1, false) and leaves the list exactly as it was. */
  lemma {:induction false} GetMissIsPure(s: seq<Binding>, k: int)
    requires k !in KeySet(s)
    ensures Lookup(s, k) == (-1, false)
    ensures AfterGet(s, k) == s
  {
  }

  /**
   A hit on `Get` returns the stored value, moves that binding to the front,
   and keeps the key set, the length and distinctness.
   */
  lemma {:induction false} GetHit(s: seq<Binding>, i: nat)
    requires DistinctKeys(s) && i < |s|
    ensures Lookup(s, s[i].key) == (s[i].value, true)
    ensures AfterGet(s, s[i].key) == [s[i]] + s[..i] + s[i + 1..]
    ensures KeySet(AfterGet(s, s[i].key)) == KeySet(s)
    ensures |AfterGet(s, s[i].key)| == |s|
    ensures DistinctKeys(AfterGet(s, s[i].key))
  {
    FindDistinct(s, i);
    var r := MoveToFront(s, i);
    MoveToFrontKeys(s, i);
  }

  /** Moving an element to the front keeps the key set and distinctness. */
  lemma {:induction false} MoveToFrontKeys(s: seq<Binding>, i: nat)
    requires i < |s|
    ensures KeySet(MoveToFront(s, i)) == KeySet(s)
    ensures DistinctKeys(s) ==> DistinctKeys(MoveToFront(s, i))
  {
    var r := MoveToFront(s, i);
    forall k | k in KeySet(s) ensures k in KeySet(r) {
      var j :| 0 <= j < |s| && s[j].key == k;
      if j < i { assert r[j + 1] == s[j]; }
      else if j == i { assert r[0] == s[j]; }
      else { assert r[j] == s[j]; }
    }
    forall k | k in KeySet(r) ensures k in KeySet(s) {
      var j :| 0 <= j < |r| && r[j].key == k;
      if j == 0 { assert r[j] == s[i]; }
      else if j <= i { assert r[j] == s[j - 1]; }
      else { assert r[j] == s[j]; }
    }
    if DistinctKeys(s) {
      forall a, b | 0 <= a < b < |r| ensures r[a].key != r[b].key {
        var a' := if a == 0 then i else if a <= i then a - 1 else a;
        var b' := if b == 0 then i else if b <= i then b - 1 else b;
        assert r[a] == s[a'] && r[b] == s[b'] && a' != b';
      }
    }
  }

  /** Moving an element to the front does not change what any key looks up to. */
  lemma {:induction false} MoveToFrontLookup(s: seq<Binding>, i: nat, k: int)
    requires DistinctKeys(s) && i < |s|
    ensures Lookup(MoveToFront(s, i), k) == Lookup(s, k)
  {
    var r := MoveToFront(s, i);
    MoveToFrontKeys(s, i);
    if k in KeySet(s) {
      var j :| 0 <= j < |s| && s[j].key == k;
      FindDistinct(s, j);
      var j' := if j < i then j + 1 else if j == i then 0 else j;
      assert r[j'] == s[j];
      FindDistinct(r, j');
    }
  }

  /** Overwriting a binding's value in place keeps keys, distinctness and every other lookup. */
  lemma {:induction false} OverwriteValue(s: seq<Binding>, i: nat, v: int)
    requires DistinctKeys(s) && i < |s|
    ensures KeySet(s[i := Binding(s[i].key, v)]) == KeySet(s)
    ensures DistinctKeys(s[i := Binding(s[i].key, v)])
    ensures Lookup(s[i := Binding(s[i].key, v)], s[i].key) == (v, true)
    ensures forall k :: k != s[i].key ==> Lookup(s[i := Binding(s[i].key, v)], k) == Lookup(s, k)
  {
    var s' := s[i := Binding(s[i].key, v)];
    assert forall j :: 0 <= j < |s| ==> s'[j].key == s[j].key;
    assert KeySet(s') == KeySet(s);
    FindDistinct(s', i);
    forall k | k != s[i].key ensures Lookup(s', k) == Lookup(s, k) {
      if k in KeySet(s) {
        var j :| 0 <= j < |s| && s[j].key == k;
        FindDistinct(s, j);
        FindDistinct(s', j);
      }
    }
  }

  /**
   `Put` on a present key overwrites only that key's value, moves it to the
   front, never evicts: the key set and the length stay, every other key
   keeps its value.
   */
  lemma {:induction false} PutUpdate(s: seq<Binding>, capacity: int, i: nat, v: int)
    requires DistinctKeys(s) && i < |s|
    ensures AfterPut(s, capacity, s[i].key, v) == [Binding(s[i].key, v)] + s[..i] + s[i + 1..]
    ensures KeySet(AfterPut(s, capacity, s[i].key, v)) == KeySet(s)
    ensures |AfterPut(s, capacity, s[i].key, v)| == |s|
    ensures DistinctKeys(AfterPut(s, capacity, s[i].key, v))
    ensures Lookup(AfterPut(s, capacity, s[i].key, v), s[i].key) == (v, true)
    ensures forall k :: k != s[i].key ==> Lookup(AfterPut(s, capacity, s[i].key, v), k) == Lookup(s, k)
  {
    var k := s[i].key;
    var s' := s[i := Binding(k, v)];
    assert AfterPut(s, capacity, k, v) == MoveToFront(s', i) by {
      FindDistinct(s, i);
    }
    OverwriteValue(s, i, v);
    MoveToFrontKeys(s', i);
    forall k' ensures Lookup(MoveToFront(s', i), k') == Lookup(s', k') {
      MoveToFrontLookup(s', i, k');
    }
  }

  /**
   Pushing a binding for an absent key at the front adds exactly that key,
   keeps distinctness and leaves every other lookup as it was.
   */
  lemma {:induction false} PushFrontKeys(s: seq<Binding>, b: Binding)
    requires DistinctKeys(s) && b.key !in KeySet(s)
    ensures KeySet([b] + s) == KeySet(s) + {b.key}
    ensures DistinctKeys([b] + s)
    ensures Lookup([b] + s, b.key) == (b.value, true)
    ensures forall k :: k != b.key ==> Lookup([b] + s, k) == Lookup(s, k)
  {
    var r := [b] + s;
    assert r[1..] == s;
    assert KeySet(r) == {b.key} + KeySet(s) by {
      forall x | x in KeySet(r) ensures x in {b.key} + KeySet(s) {
        var j :| 0 <= j < |r| && r[j].key == x;
        if j > 0 { assert r[j] == s[j - 1]; }
      }
      forall x | x in KeySet(s) ensures x in KeySet(r) {
        var j :| 0 <= j < |s| && s[j].key == x;
        assert r[j + 1] == s[j];
      }
      assert r[0].key == b.key;
    }
    assert Find(r, b.key) == Some(0);
  }

  /**
   Dropping the back binding of a list with distinct keys removes exactly
   its key, keeps distinctness and leaves every other lookup as it was.
   */
  lemma {:induction false} DropBackKeys(s: seq<Binding>)
    requires DistinctKeys(s) && s != []
    ensures KeySet(s[..|s| - 1]) == KeySet(s) - {s[|s| - 1].key}
    ensures DistinctKeys(s[..|s| - 1])
    ensures Lookup(s[..|s| - 1], s[|s| - 1].key) == (-1, false)
    ensures forall k :: k != s[|s| - 1].key ==> Lookup(s[..|s| - 1], k) == Lookup(s, k)
  {
    var n := |s| - 1;
    var r := s[..n];
    assert forall j :: 0 <= j < n ==> r[j] == s[j];
    assert KeySet(r) == KeySet(s) - {s[n].key} by {
      forall x | x in KeySet(s) - {s[n].key} ensures x in KeySet(r) {
        var j :| 0 <= j < |s| && s[j].key == x;
        assert r[j] == s[j];
      }
    }
    forall k | k != s[n].key ensures Lookup(r, k) == Lookup(s, k) {
      if k in KeySet(s) {
        var j :| 0 <= j < |s| && s[j].key == k;
        FindDistinct(s, j);
        FindDistinct(r, j);
      }
    }
  }

  /**
   `Put` on an absent key when the length differs from the capacity (or the
   list is empty) pushes the binding at the front: the length grows by
   exactly one and no key is removed.
   */
  lemma {:induction false} PutInsert(s: seq<Binding>, capacity: int, k: int, v: int)
    requires DistinctKeys(s) && k !in KeySet(s) && (|s| != capacity || s == [])
    ensures AfterPut(s, capacity, k, v) == [Binding(k, v)] + s
    ensures KeySet(AfterPut(s, capacity, k, v)) == KeySet(s) + {k}
    ensures |AfterPut(s, capacity, k, v)| == |s| + 1
    ensures DistinctKeys(AfterPut(s, capacity, k, v))
    ensures forall k' :: k' != k ==> Lookup(AfterPut(s, capacity, k, v), k') == Lookup(s, k')
  {
    assert AfterPut(s, capacity, k, v) == [Binding(k, v)] + s;
    PushFrontKeys(s, Binding(k, v));
  }

  /**
   `Put` on an absent key at capacity evicts exactly the back binding (the
   least recently touched) and pushes the new one at the front: the length
   stays at capacity, the evicted key misses afterwards, and every other key
   keeps its value.
   */
  lemma {:induction false} PutEvict(s: seq<Binding>, capacity: int, k: int, v: int)
    requires DistinctKeys(s) && k !in KeySet(s) && |s| == capacity && s != []
    ensures AfterPut(s, capacity, k, v) == [Binding(k, v)] + s[..|s| - 1]
    ensures KeySet(AfterPut(s, capacity, k, v)) == KeySet(s) - {s[|s| - 1].key} + {k}
    ensures |AfterPut(s, capacity, k, v)| == capacity
    ensures DistinctKeys(AfterPut(s, capacity, k, v))
    ensures Lookup(AfterPut(s, capacity, k, v), s[|s| - 1].key) == (-1, false)
    ensures forall k' :: k' != k && k' != s[|s| - 1].key ==>
              Lookup(AfterPut(s, capacity, k, v), k') == Lookup(s, k')
  {
    var kept := s[..|s| - 1];
    assert AfterPut(s, capacity, k, v) == [Binding(k, v)] + kept;
    DropBackKeys(s);
    PushFrontKeys(kept, Binding(k, v));
  }

  /**
   The cache invariant: for a positive capacity, a list with distinct keys
   and at most `capacity` bindings stays so after every `Get` and `Put`.
   */
  lemma {:induction false} InvariantPreserved(s: seq<Binding>, capacity: int, k: int, v: int)
    requires capacity > 0 && DistinctKeys(s) && |s| <= capacity
    ensures DistinctKeys(AfterPut(s, capacity, k, v)) && |AfterPut(s, capacity, k, v)| <= capacity
    ensures DistinctKeys(AfterGet(s, k)) && |AfterGet(s, k)| <= capacity
  {
    match Find(s, k)
    case Some(i) =>
      PutUpdate(s, capacity, i, v);
      GetHit(s, i);
    case None =>
      if |s| == capacity && s != [] { PutEvict(s, capacity, k, v); }
      else { PutInsert(s, capacity, k, v); }
  }

  /** `a` is more recently touched than `b`: both are present and `a` is nearer the front. */
  predicate MoreRecent(s: seq<Binding>, a: int, b: int)
  {
    Find(s, a).Some? && Find(s, b).Some? && Find(s, a).value < Find(s, b).value
  }

  /**
   Two lists that hold the bindings of `a` and `b` at positions related by
   an order-preserving relabelling agree on which of the two is more recent.
   */
  lemma {:induction false} SameRelativeOrder(s: seq<Binding>, r: seq<Binding>, ja: nat, jb: nat, ga: nat, gb: nat)
    requires DistinctKeys(s) && DistinctKeys(r)
    requires ja < |s| && jb < |s| && ga < |r| && gb < |r|
    requires r[ga].key == s[ja].key && r[gb].key == s[jb].key
    requires ga < gb <==> ja < jb
    ensures MoreRecent(r, s[ja].key, s[jb].key) <==> MoreRecent(s, s[ja].key, s[jb].key)
  {
    FindDistinct(s, ja);
    FindDistinct(s, jb);
    FindDistinct(r, ga);
    FindDistinct(r, gb);
  }

  /** The front binding of a list with distinct keys is more recent than any other. */
  lemma {:induction false} FrontIsMostRecent(r: seq<Binding>, g: nat)
    requires DistinctKeys(r) && 0 < g < |r|
    ensures MoreRecent(r, r[0].key, r[g].key)
  {
    FindDistinct(r, 0);
    FindDistinct(r, g);
  }

  /** Moving the element at `i` to the front makes it the most recent and keeps the order of the others. */
  lemma {:induction false} MoveToFrontOrder(s: seq<Binding>, i: nat, ja: nat, jb: nat)
    requires DistinctKeys(s) && i < |s| && ja < |s| && jb < |s| && ja != i && jb != i
    ensures MoreRecent(MoveToFront(s, i), s[i].key, s[ja].key)
    ensures MoreRecent(MoveToFront(s, i), s[ja].key, s[jb].key) <==> MoreRecent(s, s[ja].key, s[jb].key)
  {
    var r := MoveToFront(s, i);
    MoveToFrontKeys(s, i);
    var ga := if ja < i then ja + 1 else ja;
    var gb := if jb < i then jb + 1 else jb;
    assert r[ga] == s[ja] && r[gb] == s[jb];
    SameRelativeOrder(s, r, ja, jb, ga, gb);
    FrontIsMostRecent(r, ga);
  }

  /** Pushing a binding at the front makes it the most recent and keeps the order of the others. */
  lemma {:induction false} PushFrontOrder(t: seq<Binding>, x: Binding, ja: nat, jb: nat)
    requires DistinctKeys([x] + t) && ja < |t| && jb < |t|
    ensures MoreRecent([x] + t, x.key, t[ja].key)
    ensures MoreRecent([x] + t, t[ja].key, t[jb].key) <==> MoreRecent(t, t[ja].key, t[jb].key)
  {
    var r := [x] + t;
    assert DistinctKeys(t) by {
      assert forall j :: 0 <= j < |t| ==> t[j] == r[j + 1];
    }
    assert r[ja + 1] == t[ja] && r[jb + 1] == t[jb];
    SameRelativeOrder(t, r, ja, jb, ja + 1, jb + 1);
    FrontIsMostRecent(r, ja + 1);
  }

  /** Dropping the back keeps the order of the bindings in front of it. */
  lemma {:induction false} DropBackOrder(s: seq<Binding>, ja: nat, jb: nat)
    requires DistinctKeys(s) && ja < |s| - 1 && jb < |s| - 1
    ensures MoreRecent(s[..|s| - 1], s[ja].key, s[jb].key) <==> MoreRecent(s, s[ja].key, s[jb].key)
  {
    var t := s[..|s| - 1];
    assert DistinctKeys(t);
    SameRelativeOrder(s, t, ja, jb, ja, jb);
  }

  /** `Put` on a present key is an in-place overwrite followed by a move to the front. */
  lemma {:induction false} UpdateIsOverwriteThenMove(s: seq<Binding>, capacity: int, i: nat, v: int)
    requires DistinctKeys(s) && i < |s|
    ensures AfterPut(s, capacity, s[i].key, v) == MoveToFront(s[i := Binding(s[i].key, v)], i)
    ensures DistinctKeys(s[i := Binding(s[i].key, v)])
  {
    FindDistinct(s, i);
    var s' := s[i := Binding(s[i].key, v)];
    assert forall j :: 0 <= j < |s| ==> s'[j].key == s[j].key;
  }

  /** The recency-order facts of `PutKeepsRecencyOrder` for a present key. */
  lemma {:induction false} UpdateOrder(s: seq<Binding>, capacity: int, i: nat, v: int, ja: nat, jb: nat)
    requires DistinctKeys(s) && i < |s| && ja < |s| && jb < |s| && ja != i && jb != i
    ensures MoreRecent(AfterPut(s, capacity, s[i].key, v), s[i].key, s[ja].key)
    ensures MoreRecent(AfterPut(s, capacity, s[i].key, v), s[ja].key, s[jb].key) <==> MoreRecent(s, s[ja].key, s[jb].key)
  {
    var s' := s[i := Binding(s[i].key, v)];
    UpdateIsOverwriteThenMove(s, capacity, i, v);
    MoveToFrontOrder(s', i, ja, jb);
    SameRelativeOrder(s, s', ja, jb, ja, jb);
  }

  /** The recency-order facts of `PutKeepsRecencyOrder` for an absent key at capacity. */
  lemma {:induction false} EvictOrder(s: seq<Binding>, capacity: int, k: int, v: int, ja: nat, jb: nat)
    requires DistinctKeys(s) && k !in KeySet(s) && |s| == capacity && s != []
    requires ja < |s| - 1 && jb < |s| - 1
    ensures MoreRecent(AfterPut(s, capacity, k, v), k, s[ja].key)
    ensures MoreRecent(AfterPut(s, capacity, k, v), s[ja].key, s[jb].key) <==> MoreRecent(s, s[ja].key, s[jb].key)
  {
    PutEvict(s, capacity, k, v);
    var t := s[..|s| - 1];
    assert t[ja] == s[ja] && t[jb] == s[jb];
    PushFrontOrder(t, Binding(k, v), ja, jb);
    DropBackOrder(s, ja, jb);
  }

  /** The recency-order facts of `PutKeepsRecencyOrder` for an absent key that causes no eviction. */
  lemma {:induction false} InsertOrder(s: seq<Binding>, capacity: int, k: int, v: int, ja: nat, jb: nat)
    requires DistinctKeys(s) && k !in KeySet(s) && (|s| != capacity || s == [])
    requires ja < |s| && jb < |s|
    ensures MoreRecent(AfterPut(s, capacity, k, v), k, s[ja].key)
    ensures MoreRecent(AfterPut(s, capacity, k, v), s[ja].key, s[jb].key) <==> MoreRecent(s, s[ja].key, s[jb].key)
  {
    PutInsert(s, capacity, k, v);
    PushFrontOrder(s, Binding(k, v), ja, jb);
  }

  /** The back binding is the least recent: every other key is more recent than it. */
  lemma {:induction false} BackIsLeastRecent(s: seq<Binding>, j: nat)
    requires DistinctKeys(s) && j < |s| - 1
    ensures MoreRecent(s, s[j].key, s[|s| - 1].key)
  {
    FindDistinct(s, j);
    FindDistinct(s, |s| - 1);
  }

  /**
   Eviction removes the least recent key: when `Put` of an absent key evicts,
   a key more recent than some other key survives, and the evicted key is
   less recent than every key that stays.
   */
  lemma {:induction false} NewerSurvivesEviction(s: seq<Binding>, capacity: int, k: int, v: int, a: int, b: int)
    requires DistinctKeys(s) && k !in KeySet(s) && |s| == capacity && s != []
    requires MoreRecent(s, a, b)
    ensures a in KeySet(AfterPut(s, capacity, k, v))
    ensures s[|s| - 1].key !in KeySet(AfterPut(s, capacity, k, v))
    ensures forall j :: 0 <= j < |s| - 1 ==> MoreRecent(s, s[j].key, s[|s| - 1].key)
  {
    PutEvict(s, capacity, k, v);
    forall j | 0 <= j < |s| - 1
      ensures MoreRecent(s, s[j].key, s[|s| - 1].key)
    {
      BackIsLeastRecent(s, j);
    }
  }

  /**
   Recency order: after `Put(k, v)` the key `k` is the most recent of all,
   and any two other keys present before and after keep their relative
   order.
   */
  lemma {:induction false} PutKeepsRecencyOrder(s: seq<Binding>, capacity: int, k: int, v: int, a: int, b: int)
    requires DistinctKeys(s) && a != k && b != k && a in KeySet(s) && b in KeySet(s)
    requires a in KeySet(AfterPut(s, capacity, k, v)) && b in KeySet(AfterPut(s, capacity, k, v))
    ensures MoreRecent(AfterPut(s, capacity, k, v), k, a)
    ensures MoreRecent(AfterPut(s, capacity, k, v), a, b) <==> MoreRecent(s, a, b)
  {
    var ja :| 0 <= ja < |s| && s[ja].key == a;
    var jb :| 0 <= jb < |s| && s[jb].key == b;
    if k in KeySet(s) {
      var i :| 0 <= i < |s| && s[i].key == k;
      UpdateOrder(s, capacity, i, v, ja, jb);
    } else if |s| == capacity && s != [] {
      assert ja < |s| - 1 && jb < |s| - 1 by {
        PutEvict(s, capacity, k, v);
      }
      EvictOrder(s, capacity, k, v, ja, jb);
    } else {
      InsertOrder(s, capacity, k, v, ja, jb);
    }
  }

  /**
   Recency order for `Get(k)`: a hit makes `k` the most recent, and the
   relative order of any two other keys does not change.
   */
  lemma {:induction false} GetKeepsRecencyOrder(s: seq<Binding>, k: int, a: int, b: int)
    requires DistinctKeys(s) && a != k && b != k && a in KeySet(s) && b in KeySet(s)
    ensures k in KeySet(s) ==> MoreRecent(AfterGet(s, k), k, a)
    ensures MoreRecent(AfterGet(s, k), a, b) <==> MoreRecent(s, a, b)
  {
    if k in KeySet(s) {
      var i :| 0 <= i < |s| && s[i].key == k;
      var ja :| 0 <= ja < |s| && s[ja].key == a;
      var jb :| 0 <= jb < |s| && s[jb].key == b;
      assert AfterGet(s, k) == MoveToFront(s, i) by {
        FindDistinct(s, i);
      }
      MoveToFrontOrder(s, i, ja, jb);
    }
  }

  /**
   As written, a capacity of zero or less never triggers an eviction: every
   `Put` of a new key makes the list one longer, so the list outgrows the
   capacity.
   */
  lemma {:induction false} NonPositiveCapacityGrows(s: seq<Binding>, capacity: int, k: int, v: int)
    requires capacity <= 0 && k !in KeySet(s)
    ensures |AfterPut(s, capacity, k, v)| == |s| + 1 > capacity
  {
  }

  /** Two puts into a cache of capacity 0 leave two bindings in it. */
  lemma {:induction false} ZeroCapacityExample()
    ensures |AfterPut(AfterPut([], 0, 1, 1), 0, 2, 2)| == 2
  {
    var s1 := AfterPut([], 0, 1, 1);
    assert s1 == [Binding(1, 1)];
    assert 2 !in KeySet(s1);
  }

  // Single steps on lists of at most two bindings, as in the trace of `main`.

  /** `Put` of a key into an empty list. */
  lemma PutIntoEmpty(s: seq<Binding>, capacity: int, k: int, v: int)
    requires s == []
    ensures k !in KeySet(s) && AfterPut(s, capacity, k, v) == [Binding(k, v)]
  {
    assert Find(s, k) == None;
  }

  /** `Put` of a new key into a one-binding list of capacity 2: nothing is evicted. */
  lemma {:induction false} PutIntoSingle(s: seq<Binding>, k: int, v: int)
    requires |s| == 1 && s[0].key != k
    ensures k !in KeySet(s) && AfterPut(s, 2, k, v) == [Binding(k, v), s[0]]
  {
    assert s[1..] == [];
    assert Find(s[1..], k) == None;
    assert Find(s, k) == None;
  }

  /** `Put` of a new key into a full two-binding list: the back binding is evicted. */
  lemma {:induction false} PutIntoFullPair(s: seq<Binding>, k: int, v: int)
    requires |s| == 2 && s[0].key != k && s[1].key != k
    ensures k !in KeySet(s) && AfterPut(s, 2, k, v) == [Binding(k, v), s[0]]
  {
    assert s[1..][1..] == [];
    assert Find(s[1..][1..], k) == None;
    assert Find(s[1..], k) == None;
    assert Find(s, k) == None;
    assert s[..1] == [s[0]];
  }

  /** `Get` on a two-binding list with distinct keys: front hit, back hit (moved to the front) or miss. */
  lemma {:induction false} GetFromPair(s: seq<Binding>, k: int)
    requires |s| == 2 && s[0].key != s[1].key
    ensures s[0].key == k ==> Lookup(s, k) == (s[0].value, true) && AfterGet(s, k) == s
    ensures s[1].key == k ==> Lookup(s, k) == (s[1].value, true) && AfterGet(s, k) == [s[1], s[0]]
    ensures s[0].key != k && s[1].key != k ==> Lookup(s, k) == (-1, false) && AfterGet(s, k) == s
  {
    assert s[1..][1..] == [];
    assert Find(s[1..][1..], k) == None;
    if s[0].key == k {
      assert Find(s, k) == Some(0);
      var m := MoveToFront(s, 0);
      assert m[0] == s[0] && m[1] == s[1];
      assert m == s;
    } else if s[1].key == k {
      assert Find(s[1..], k) == Some(0);
      assert Find(s, k) == Some(1);
      var m := MoveToFront(s, 1);
      assert m[0] == s[1] && m[1] == s[0];
      assert m == [s[1], s[0]];
    } else {
      assert Find(s[1..], k) == None;
      assert Find(s, k) == None;
    }
  }
}
