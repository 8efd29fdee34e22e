/** The bounded least-recently-used cache of parsed files. */
module Lru {
  import opened Collections

  /** The cache as a value: `order` lists the keys, most recently used first. */
  datatype Cache<K, V> = Cache(capacity: int, order: seq<K>, items: map<K, V>)

  ghost predicate WellFormed<K(!new), V>(c: Cache<K, V>) {
    && 1 <= c.capacity
    && |c.order| <= c.capacity
    && Distinct(c.order)
    && (forall k :: k in c.items <==> k in c.order)
  }

  // ----- order lists

  /** `s` without the key `k`. */
  function Without<K(==)>(s: seq<K>, k: K): seq<K> {
    if s == [] then []
    else if s[|s| - 1] == k then Without(s[..|s| - 1], k)
    else Without(s[..|s| - 1], k) + [s[|s| - 1]]
  }

  /** The keys of `s` that belong to `keep`, in their order. */
  ghost function Keep<K>(s: seq<K>, keep: set<K>): seq<K> {
    if s == [] then []
    else if s[|s| - 1] in keep then Keep(s[..|s| - 1], keep) + [s[|s| - 1]]
    else Keep(s[..|s| - 1], keep)
  }

  lemma {:induction false} WithoutContents<K(!new)>(s: seq<K>, k: K)
    ensures forall x :: x in Without(s, k) <==> x in s && x != k
    ensures |Without(s, k)| <= |s|
    ensures k !in s ==> Without(s, k) == s
    decreases |s|
  {
    if s != [] {
      WithoutContents(s[..|s| - 1], k);
      assert s == s[..|s| - 1] + [s[|s| - 1]];
    }
  }

  lemma {:induction false} WithoutDistinct<K(!new)>(s: seq<K>, k: K)
    requires Distinct(s)
    ensures Distinct(Without(s, k))
    ensures k in s ==> |Without(s, k)| == |s| - 1
    decreases |s|
  {
    if s != [] {
      var init := s[..|s| - 1];
      assert s == init + [s[|s| - 1]];
      WithoutDistinct(init, k);
      WithoutContents(init, k);
      var w := Without(init, k);
      assert forall i :: 0 <= i < |w| ==> w[i] in w && w[i] in init;
    }
  }

  lemma {:induction false} KeepContents<K(!new)>(s: seq<K>, keep: set<K>)
    ensures forall x :: x in Keep(s, keep) <==> x in s && x in keep
    ensures |Keep(s, keep)| <= |s|
    decreases |s|
  {
    if s != [] {
      KeepContents(s[..|s| - 1], keep);
      assert s == s[..|s| - 1] + [s[|s| - 1]];
    }
  }

  lemma {:induction false} KeepWithout<K(!new)>(s: seq<K>, keep: set<K>, k: K)
    ensures Keep(Without(s, k), keep) == Without(Keep(s, keep), k)
    ensures k !in keep ==> Keep(Without(s, k), keep) == Keep(s, keep)
    ensures Keep(Without(s, k), keep) == Keep(Without(s, k), keep - {k}) == Keep(s, keep - {k})
    ensures Keep(Without(s, k), keep + {k}) == Keep(Without(s, k), keep)
    decreases |s|
  {
    if s != [] {
      KeepWithout(s[..|s| - 1], keep, k);
    }
  }

  lemma {:induction false} KeepFront<K(!new)>(k: K, s: seq<K>, keep: set<K>)
    ensures Keep([k] + s, keep) == (if k in keep then [k] else []) + Keep(s, keep)
    decreases |s|
  {
    var t := [k] + s;
    if s != [] {
      KeepFront(k, s[..|s| - 1], keep);
      assert t[..|t| - 1] == [k] + s[..|s| - 1];
    }
  }

  lemma {:induction false} KeepAll<K(!new)>(s: seq<K>, keep: set<K>)
    requires forall x :: x in s ==> x in keep
    ensures Keep(s, keep) == s
    decreases |s|
  {
    if s != [] {
      KeepAll(s[..|s| - 1], keep);
    }
  }

  // ----- the operations on values

  function EmptyCache<K, V>(capacity: int): Cache<K, V> {
    Cache(if capacity <= 0 then 1 else capacity, [], map[])
  }

  function AfterGet<K(==), V>(c: Cache<K, V>, k: K): Cache<K, V> {
    if k in c.items then c.(order := [k] + Without(c.order, k)) else c
  }

  function Lookup<K(==), V>(c: Cache<K, V>, k: K): Option<V> {
    if k in c.items then Some(c.items[k]) else None
  }

  /** The cache cut down to its `n` most recently used keys. */
  function Truncate<K(==), V>(c: Cache<K, V>, n: nat): Cache<K, V> {
    if n >= |c.order| then c
    else c.(order := c.order[..n], items := map k | k in c.items && k in c.order[..n] :: c.items[k])
  }

  /** What `Put` does before it adds a new key. */
  function MakeRoom<K(==), V>(c: Cache<K, V>): Cache<K, V> {
    if |c.order| >= c.capacity && c.order != [] then Truncate(c, |c.order| - 1) else c
  }

  function AfterPut<K(==), V>(c: Cache<K, V>, k: K, v: V): Cache<K, V> {
    if k in c.items then c.(order := [k] + Without(c.order, k), items := c.items[k := v])
    else
      var room := MakeRoom(c);
      room.(order := [k] + room.order, items := room.items[k := v])
  }

  function AfterEvict<K(==), V>(c: Cache<K, V>, k: K): Cache<K, V> {
    if k in c.items then c.(order := Without(c.order, k), items := c.items - {k}) else c
  }

  function AfterSetCapacity<K(==), V>(c: Cache<K, V>, capacity: int): Cache<K, V> {
    var n := if capacity <= 0 then 1 else capacity;
    Truncate(c, n).(capacity := n)
  }

  function PruneTarget(size: nat, percentage: int): nat {
    if percentage <= 0 then 0
    else if percentage > 100 then size
    else size * percentage / 100
  }

  lemma PruneTargetBound(size: nat, percentage: int)
    ensures PruneTarget(size, percentage) <= size
  {
    if 0 < percentage <= 100 {
      assert size * percentage <= size * 100;
    }
  }

  function AfterPrune<K(==), V>(c: Cache<K, V>, percentage: int): Cache<K, V> {
    PruneTargetBound(|c.order|, percentage);
    Truncate(c, |c.order| - PruneTarget(|c.order|, percentage))
  }

  lemma TruncateWellFormed<K(!new), V>(c: Cache<K, V>, n: nat)
    requires WellFormed(c)
    ensures WellFormed(Truncate(c, n)) && |Truncate(c, n).order| <= n
    ensures forall k :: k in Truncate(c, n).items ==> k in c.items && Truncate(c, n).items[k] == c.items[k]
  {
    if n < |c.order| {
      var t := Truncate(c, n);
      forall k | k in t.order
        ensures k in c.items
      {
        assert k in c.order;
      }
    }
  }

  lemma GetWellFormed<K(!new), V>(c: Cache<K, V>, k: K)
    requires WellFormed(c)
    ensures WellFormed(AfterGet(c, k))
  {
    WithoutContents(c.order, k);
    WithoutDistinct(c.order, k);
  }

  lemma PutWellFormed<K(!new), V>(c: Cache<K, V>, k: K, v: V)
    requires WellFormed(c)
    ensures WellFormed(AfterPut(c, k, v)) && k in AfterPut(c, k, v).items && AfterPut(c, k, v).items[k] == v
    ensures forall x :: x in AfterPut(c, k, v).items && x != k ==>
              x in c.items && AfterPut(c, k, v).items[x] == c.items[x]
    ensures k in c.items || |c.order| < c.capacity ==> AfterPut(c, k, v).items == c.items[k := v]
  {
    if k in c.items {
      WithoutContents(c.order, k);
      WithoutDistinct(c.order, k);
    } else {
      if |c.order| >= c.capacity {
        TruncateWellFormed(c, |c.order| - 1);
      }
      hide Truncate;
    }
  }

  lemma EvictWellFormed<K(!new), V>(c: Cache<K, V>, k: K)
    requires WellFormed(c)
    ensures WellFormed(AfterEvict(c, k)) && AfterEvict(c, k).items == c.items - {k}
  {
    WithoutContents(c.order, k);
    WithoutDistinct(c.order, k);
  }

  // ----- the class

  /** The cache object: `items` maps each key to its value, and `order` holds the keys, most recent first. */
  class LRUCache<K(==,!new), V> {
    var capacity: int
    var items: map<K, V>
    var order: seq<K>

    ghost function State(): Cache<K, V>
      reads this
    {
      Cache(capacity, order, items)
    }

    ghost predicate Valid()
      reads this
    {
      WellFormed(State())
    }

    constructor (capacity: int)
      ensures Valid() && State() == EmptyCache(capacity)
    {
      this.capacity := if capacity <= 0 then 1 else capacity;
      items, order := map[], [];
    }

    method Get(key: K) returns (value: Option<V>)
      requires Valid()
      modifies this
      ensures Valid() && State() == AfterGet(old(State()), key)
      ensures value == Lookup(old(State()), key)
    {
      GetWellFormed(State(), key);
      if key !in items {
        return None;
      }
      order := [key] + Without(order, key);
      return Some(items[key]);
    }

    method Put(key: K, value: V)
      requires Valid()
      modifies this
      ensures Valid() && State() == AfterPut(old(State()), key, value)
    {
      hide Without, Distinct;
      PutWellFormed(State(), key, value);
      if key in items {
        order := [key] + Without(order, key);
        items := items[key := value];
        return;
      }
      if |order| >= capacity {
        EvictLeastRecent();
      }
      order := [key] + order;
      items := items[key := value];
    }

    method Evict(key: K)
      requires Valid()
      modifies this
      ensures Valid() && State() == AfterEvict(old(State()), key)
    {
      EvictWellFormed(State(), key);
      if key !in items {
        return;
      }
      order := Without(order, key);
      items := items - {key};
    }

    method Peek(key: K) returns (value: Option<V>)
      ensures value == Lookup(State(), key)
    {
      if key !in items {
        return None;
      }
      return Some(items[key]);
    }

    method EvictLeastRecent()
      requires Distinct(order) && forall k :: k in items <==> k in order
      modifies this`order, this`items
      ensures State() == Truncate(old(State()), if old(|order|) == 0 then 0 else old(|order|) - 1)
    {
      if |order| == 0 {
        return;
      }
      var back := order[|order| - 1];
      assert order == order[..|order| - 1] + [back];
      order := order[..|order| - 1];
      items := items - {back};
    }

    method SetCapacity(capacity: int)
      requires Valid()
      modifies this
      ensures Valid() && State() == AfterSetCapacity(old(State()), capacity)
      ensures this.capacity == (if capacity < 1 then 1 else capacity)
      ensures order == old(order)[..if old(|order|) < this.capacity then old(|order|) else this.capacity]
      ensures forall k :: k in items ==> k in old(items) && items[k] == old(items)[k]
    {
      hide Truncate, WellFormed, Distinct;
      var n := if capacity <= 0 then 1 else capacity;
      ghost var before := State();
      this.capacity := n;
      TruncateNone(before);
      while |order| > this.capacity
        invariant this.capacity == n && n >= 1
        invariant |order| <= |before.order| && (|order| >= n || |order| == |before.order|)
        invariant Cache(before.capacity, order, items) == Truncate(before, |order|)
        decreases |order|
      {
        DropLast(before, State());
        EvictLeastRecent();
      }
      TruncateResized(before, n, State());
      TruncateOrder(before, n);
      TruncateWellFormed(before, n);
    }

    method Prune(percentage: int) returns (count: nat)
      requires Valid()
      modifies this
      ensures Valid() && State() == AfterPrune(old(State()), percentage)
      ensures count == PruneTarget(old(|order|), percentage)
      ensures order == old(order)[..old(|order|) - count]
      ensures forall k :: k in items ==> k in old(items) && items[k] == old(items)[k]
      ensures percentage <= 0 ==> count == 0
      ensures percentage >= 100 ==> order == []
      ensures 0 <= percentage <= 100 ==> 100 * count <= old(|order|) * percentage < 100 * (count + 1)
    {
      hide Truncate, WellFormed, Distinct;
      ghost var before := State();
      TruncateNone(before);
      TruncateOrder(before, |order|);
      if percentage <= 0 {
        return 0;
      }
      var p := if percentage > 100 then 100 else percentage;
      PruneTargetBound(|order|, percentage);
      var target := |order| * p / 100;
      assert target == PruneTarget(|order|, percentage);
      TruncateWellFormed(before, |order| - target);
      TruncateOrder(before, |order| - target);
      PercentOf(|order|, p);
      count := 0;
      for i := 0 to target
        invariant count == i <= target <= |before.order|
        invariant |order| == |before.order| - i && this.capacity == before.capacity
        invariant State() == Truncate(before, |before.order| - i)
      {
        DropLast(before, State());
        EvictLeastRecent();
        count := count + 1;
      }
    }
  }

  lemma TruncateOrder<K(!new), V>(c: Cache<K, V>, n: nat)
    ensures Truncate(c, n).order == c.order[..if |c.order| < n then |c.order| else n]
  {
    assert n >= |c.order| ==> c.order[..|c.order|] == c.order;
  }

  lemma PercentOf(size: nat, percentage: nat)
    ensures var n := size * percentage / 100; 100 * n <= size * percentage < 100 * (n + 1)
    ensures size * 100 / 100 == size
  {
  }

  lemma TruncateTwice<K(!new), V>(c: Cache<K, V>, m: nat, n: nat)
    requires WellFormed(c) && n <= m <= |c.order|
    ensures Truncate(Truncate(c, m), n) == Truncate(c, n)
  {
    assert c.order[..m][..n] == c.order[..n];
    assert forall k :: k in c.order[..n] ==> k in c.order[..m];
  }

  lemma TruncateNone<K(!new), V>(c: Cache<K, V>)
    ensures Truncate(c, |c.order|) == c
  {
  }

  /** Dropping the last key of a shortened cache shortens it by one. */
  lemma DropLast<K(!new), V>(before: Cache<K, V>, c: Cache<K, V>)
    requires WellFormed(before) && 0 < |c.order| <= |before.order|
    requires c.(capacity := before.capacity) == Truncate(before, |c.order|)
    ensures Distinct(c.order) && forall k :: k in c.items <==> k in c.order
    ensures var t := Truncate(c, |c.order| - 1);
            |t.order| == |c.order| - 1 && t.capacity == c.capacity &&
            t.(capacity := before.capacity) == Truncate(before, |c.order| - 1)
  {
    TruncateWellFormed(before, |c.order|);
    TruncateTwice(before, |c.order|, |c.order| - 1);
  }

  lemma TruncateResized<K(!new), V>(before: Cache<K, V>, n: nat, c: Cache<K, V>)
    requires WellFormed(before) && n >= 1 && c.capacity == n && |c.order| <= n && |c.order| <= |before.order|
    requires |c.order| == n || |c.order| == |before.order|
    requires c.(capacity := before.capacity) == Truncate(before, |c.order|)
    ensures WellFormed(c) && c == Truncate(before, n).(capacity := n)
  {
    TruncateWellFormed(before, n);
  }

  // ----- inclusion

  datatype CacheOp<K, V> = GetOp(key: K) | PutOp(key: K, value: V) | EvictOp(key: K)

  function CacheStep<K(==), V>(c: Cache<K, V>, op: CacheOp<K, V>): Cache<K, V> {
    match op
    case GetOp(k) => AfterGet(c, k)
    case PutOp(k, v) => AfterPut(c, k, v)
    case EvictOp(k) => AfterEvict(c, k)
  }

  function RunCache<K(==), V>(c: Cache<K, V>, ops: seq<CacheOp<K, V>>): Cache<K, V> {
    if ops == [] then c else CacheStep(RunCache(c, ops[..|ops| - 1]), ops[|ops| - 1])
  }

  /** `small` holds some of the entries of `large` in the same order of use, and the larger cache never
      runs ahead by more entries than it has extra room for. */
  ghost predicate Included<K(!new), V>(small: Cache<K, V>, large: Cache<K, V>) {
    && WellFormed(small) && WellFormed(large)
    && small.capacity <= large.capacity
    && |large.order| - |small.order| <= large.capacity - small.capacity
    && small.order == Keep(large.order, small.items.Keys)
    && (forall k :: k in small.items ==> k in large.items && large.items[k] == small.items[k])
  }

  lemma GetKeepsInclusion<K(!new), V>(small: Cache<K, V>, large: Cache<K, V>, k: K)
    requires Included(small, large)
    ensures Included(AfterGet(small, k), AfterGet(large, k))
  {
    GetWellFormed(small, k);
    GetWellFormed(large, k);
    if k in large.items {
      var keep := small.items.Keys;
      var rest := Without(large.order, k);
      WithoutDistinct(large.order, k);
      WithoutDistinct(small.order, k);
      KeepWithout(large.order, keep, k);
      KeepFront(k, rest, keep);
    }
  }

  lemma EvictKeepsInclusion<K(!new), V>(small: Cache<K, V>, large: Cache<K, V>, k: K)
    requires Included(small, large)
    ensures Included(AfterEvict(small, k), AfterEvict(large, k))
  {
    EvictWellFormed(small, k);
    EvictWellFormed(large, k);
    if k in large.items {
      WithoutDistinct(large.order, k);
      WithoutDistinct(small.order, k);
      KeepWithout(large.order, small.items.Keys, k);
      assert (small.items - {k}).Keys == small.items.Keys - {k};
    }
  }

  lemma UpdateKeepsInclusion<K(!new), V>(small: Cache<K, V>, large: Cache<K, V>, k: K, v: V)
    requires Included(small, large) && k in small.items
    ensures Included(AfterPut(small, k, v), AfterPut(large, k, v))
  {
    PutWellFormed(small, k, v);
    PutWellFormed(large, k, v);
    var keep := small.items.Keys;
    WithoutDistinct(large.order, k);
    WithoutDistinct(small.order, k);
    KeepWithout(large.order, keep, k);
    KeepFront(k, Without(large.order, k), keep);
    assert small.items[k := v].Keys == keep;
  }

  // A key that the smaller cache does not hold.

  lemma {:induction false} KeepDropLast<K(!new)>(s: seq<K>, keep: set<K>)
    requires Distinct(s) && Keep(s, keep) != []
    ensures var kept := Keep(s, keep);
            Keep(s, keep - {kept[|kept| - 1]}) == kept[..|kept| - 1]
    decreases |s|
  {
    var last, init := s[|s| - 1], s[..|s| - 1];
    if last in keep {
      KeepContents(init, keep);
      assert last !in init;
      KeepWithout(init, keep, last);
      WithoutContents(init, last);
    } else {
      KeepDropLast(init, keep);
    }
  }

  /** The smaller cache drops its least recently used key `y`. */
  lemma SmallMakesRoom<K(!new), V>(small: Cache<K, V>, large: Cache<K, V>)
    requires Included(small, large) && |small.order| >= small.capacity
    ensures WellFormed(MakeRoom(small)) && |MakeRoom(small).order| == |small.order| - 1
    ensures MakeRoom(small).order == Keep(large.order, MakeRoom(small).items.Keys)
    ensures var y := small.order[|small.order| - 1];
            MakeRoom(small).items == small.items - {y} && y in small.items
  {
    TruncateWellFormed(small, |small.order| - 1);
    KeepDropLast(large.order, small.items.Keys);
    var y, s := small.order[|small.order| - 1], MakeRoom(small);
    assert small.order == s.order + [y];
    forall x
      ensures x in s.items <==> x in small.items && x != y
    {
      assert x in small.order <==> x in s.order || x == y;
    }
    assert s.items == small.items - {y};
    assert s.items.Keys == small.items.Keys - {y};
  }

  /** The larger cache drops its least recently used key too, which cannot be one that the smaller
      cache still holds. */
  lemma LargeMakesRoom<K(!new), V>(small: Cache<K, V>, large: Cache<K, V>)
    requires Included(small, large) && |large.order| >= large.capacity
    ensures |small.order| >= small.capacity
    ensures WellFormed(MakeRoom(large)) && |MakeRoom(large).order| == |large.order| - 1
    ensures MakeRoom(small).order == Keep(MakeRoom(large).order, MakeRoom(small).items.Keys)
    ensures forall x :: x in MakeRoom(small).items ==> x in MakeRoom(large).items
  {
    SmallMakesRoom(small, large);
    TruncateWellFormed(large, |large.order| - 1);
    LastDropped(small, large);
  }

  lemma KeepSnoc<K>(s: seq<K>, x: K, keep: set<K>)
    ensures Keep(s + [x], keep) == Keep(s, keep) + if x in keep then [x] else []
  {
    assert (s + [x])[..|s|] == s;
  }

  lemma LastDropped<K(!new), V>(small: Cache<K, V>, large: Cache<K, V>)
    requires Included(small, large) && |large.order| >= large.capacity && small.order != []
    requires var y := small.order[|small.order| - 1];
             MakeRoom(small).items == small.items - {y} && y in small.items
    requires MakeRoom(small).order == Keep(large.order, MakeRoom(small).items.Keys)
    ensures MakeRoom(small).order == Keep(MakeRoom(large).order, MakeRoom(small).items.Keys)
    ensures forall x :: x in MakeRoom(small).items ==> x in MakeRoom(large).items
  {
    hide Keep;
    var x, y, l := large.order[|large.order| - 1], small.order[|small.order| - 1], MakeRoom(large);
    var keep := MakeRoom(small).items.Keys;
    assert large.order == l.order + [x];
    KeepSnoc(l.order, x, small.items.Keys);
    KeepSnoc(l.order, x, keep);
    assert x in small.items ==> y == x;
    forall k | k in MakeRoom(small).items
      ensures k in l.items
    {
      assert k in large.order && k != x;
    }
  }

  /** The part of the insertion that is the same in every case. */
  lemma PushKeepsInclusion<K(!new), V>(s: Cache<K, V>, l: Cache<K, V>, k: K)
    requires Distinct(l.order) && k !in s.items && s.order == Keep(l.order, s.items.Keys)
    ensures [k] + s.order == Keep([k] + Without(l.order, k), s.items.Keys + {k})
  {
    var keep := s.items.Keys;
    KeepWithout(l.order, keep, k);
    KeepFront(k, Without(l.order, k), keep + {k});
  }

  /** `Put` makes room if it must, then puts the key in front. */
  lemma PutShape<K(!new), V>(c: Cache<K, V>, k: K, v: V)
    requires WellFormed(c)
    ensures var r := if k in c.items then c else MakeRoom(c);
            && AfterPut(c, k, v) == r.(order := [k] + Without(r.order, k), items := r.items[k := v])
            && |Without(r.order, k)| == |r.order| - (if k in c.items then 1 else 0)
  {
    var r := if k in c.items then c else MakeRoom(c);
    if k !in c.items {
      assert k !in c.order;
      assert k !in r.order;
    }
    WithoutContents(r.order, k);
    WithoutDistinct(c.order, k);
  }

  /** The two caches after room has been made for `k`. */
  ghost predicate Ready<K(!new), V>(small: Cache<K, V>, large: Cache<K, V>, k: K, s: Cache<K, V>, l: Cache<K, V>) {
    && s == MakeRoom(small)
    && l == (if k in large.items then large else MakeRoom(large))
    && s.order == Keep(l.order, s.items.Keys)
    && k !in s.items && Distinct(l.order)
    && (forall x :: x in s.items ==> x in l.items && l.items[x] == s.items[x])
    && |l.order| - |s.order| <= large.capacity - small.capacity + (if k in large.items then 1 else 0)
  }

  lemma BothMakeRoom<K(!new), V>(small: Cache<K, V>, large: Cache<K, V>, k: K)
    requires Included(small, large) && k !in small.items
    ensures Ready(small, large, k, MakeRoom(small), if k in large.items then large else MakeRoom(large))
  {
    if |small.order| >= small.capacity {
      SmallMakesRoom(small, large);
    }
    if |large.order| >= large.capacity {
      LargeMakesRoom(small, large);
    }
  }

  /** A key that the smaller cache does not hold: if the larger cache has to drop an entry for it, so has
      the smaller, and the entry the larger one drops is not one that the smaller one keeps. */
  lemma InsertKeepsInclusion<K(!new), V>(small: Cache<K, V>, large: Cache<K, V>, k: K, v: V)
    requires Included(small, large) && k !in small.items
    ensures Included(AfterPut(small, k, v), AfterPut(large, k, v))
  {
    hide Keep, Without, Truncate, MakeRoom, AfterPut;
    PutWellFormed(small, k, v);
    PutWellFormed(large, k, v);
    PutShape(small, k, v);
    PutShape(large, k, v);
    BothMakeRoom(small, large, k);
    var s, l := MakeRoom(small), if k in large.items then large else MakeRoom(large);
    hide WellFormed;
    PushKeepsInclusion(s, l, k);
    NotThere(s.order, k, l.order, s.items.Keys);
    assert s.items[k := v].Keys == s.items.Keys + {k};
    RoomCapacity(small);
    RoomCapacity(large);
  }

  lemma RoomCapacity<K, V>(c: Cache<K, V>)
    ensures MakeRoom(c).capacity == c.capacity
  {
  }

  lemma NotThere<K(!new)>(kept: seq<K>, k: K, s: seq<K>, keep: set<K>)
    requires kept == Keep(s, keep) && k !in keep
    ensures Without(kept, k) == kept
  {
    KeepContents(s, keep);
    WithoutContents(kept, k);
  }

  lemma StepKeepsInclusion<K(!new), V>(small: Cache<K, V>, large: Cache<K, V>, op: CacheOp<K, V>)
    requires Included(small, large)
    ensures Included(CacheStep(small, op), CacheStep(large, op))
  {
    match op
    case GetOp(k) => GetKeepsInclusion(small, large, k);
    case EvictOp(k) => EvictKeepsInclusion(small, large, k);
    case PutOp(k, v) =>
      if k in small.items {
        UpdateKeepsInclusion(small, large, k, v);
      } else {
        InsertKeepsInclusion(small, large, k, v);
      }
  }

  /** Over any trace, a cache of larger capacity holds every entry that the smaller one holds. */
  lemma {:induction false} Inclusion<K(!new), V>(m: int, n: int, ops: seq<CacheOp<K, V>>)
    requires m <= n
    ensures Included(RunCache(EmptyCache(m), ops), RunCache(EmptyCache(n), ops))
    decreases |ops|
  {
    if ops != [] {
      Inclusion(m, n, ops[..|ops| - 1]);
      StepKeepsInclusion(RunCache(EmptyCache(m), ops[..|ops| - 1]), RunCache(EmptyCache(n), ops[..|ops| - 1]),
        ops[|ops| - 1]);
    }
  }

  /** Every hit of the smaller cache is a hit of the larger one with the same value. */
  lemma HitsAreIncluded<K(!new), V>(m: int, n: int, ops: seq<CacheOp<K, V>>, k: K)
    requires m <= n
    ensures var small := Lookup(RunCache(EmptyCache(m), ops), k);
            small.Some? ==> Lookup(RunCache(EmptyCache(n), ops), k) == small
  {
    Inclusion(m, n, ops);
  }

  // ----- the order is the order of use

  /** The position in the trace of the last operation that used `k`: a `Put` of it or a `Get` that hit. */
  ghost function LastUse<K(!new), V>(capacity: int, ops: seq<CacheOp<K, V>>, k: K): int {
    if ops == [] then -1
    else
      var init, last := ops[..|ops| - 1], ops[|ops| - 1];
      if last.key == k && (last.PutOp? || (last.GetOp? && k in RunCache(EmptyCache(capacity), init).items)) then |init|
      else LastUse(capacity, init, k)
  }

  ghost predicate DescendingBy<K(!new)>(s: seq<K>, use: K -> int) {
    forall i, j :: 0 <= i < j < |s| ==> use(s[i]) > use(s[j])
  }

  lemma {:induction false} WithoutDescending<K(!new)>(s: seq<K>, k: K, use: K -> int)
    requires DescendingBy(s, use)
    ensures DescendingBy(Without(s, k), use)
    decreases |s|
  {
    if s != [] {
      var init := s[..|s| - 1];
      WithoutDescending(init, k, use);
      WithoutContents(init, k);
      var w := Without(init, k);
      forall i | 0 <= i < |w|
        ensures use(w[i]) > use(s[|s| - 1])
      {
        assert w[i] in w;
        var j :| 0 <= j < |init| && init[j] == w[i];
        assert s[j] == w[i];
      }
    }
  }

  lemma LastUseBound<K(!new), V>(capacity: int, ops: seq<CacheOp<K, V>>, k: K)
    ensures LastUse(capacity, ops, k) < |ops|
    decreases |ops|
  {
    if ops != [] {
      LastUseBound(capacity, ops[..|ops| - 1], k);
    }
  }

  lemma {:induction false} RunWellFormed<K(!new), V>(capacity: int, ops: seq<CacheOp<K, V>>)
    ensures WellFormed(RunCache(EmptyCache(capacity), ops))
    decreases |ops|
  {
    if ops != [] {
      RunWellFormed(capacity, ops[..|ops| - 1]);
      StepWellFormed(RunCache(EmptyCache(capacity), ops[..|ops| - 1]), ops[|ops| - 1]);
    }
  }

  lemma StepWellFormed<K(!new), V>(c: Cache<K, V>, op: CacheOp<K, V>)
    requires WellFormed(c)
    ensures WellFormed(CacheStep(c, op))
  {
    match op
    case GetOp(k) => GetWellFormed(c, k);
    case PutOp(k, v) => PutWellFormed(c, k, v);
    case EvictOp(k) => EvictWellFormed(c, k);
  }

  /** Putting a used key in front of a list that descends keeps it descending when the key's use is newest. */
  lemma FrontDescending<K(!new)>(k: K, s: seq<K>, before: K -> int, after: K -> int, n: int)
    requires DescendingBy(s, before)
    requires forall x :: before(x) < n && after(x) == if x == k then n else before(x)
    ensures DescendingBy([k] + Without(s, k), after)
  {
    WithoutDescending(s, k, before);
    WithoutContents(s, k);
    var w := Without(s, k);
    forall i | 0 <= i < |w|
      ensures w[i] != k
    {
      assert w[i] in w;
    }
  }

  /** The list runs from the most recently used key to the least recently used one, so the entry that
      `Put` drops is the one whose last use is oldest. */
  lemma {:induction false} OrderIsRecency<K(!new), V>(capacity: int, ops: seq<CacheOp<K, V>>)
    ensures DescendingBy(RunCache(EmptyCache(capacity), ops).order, k => LastUse(capacity, ops, k))
    decreases |ops|
  {
    if ops != [] {
      var init, op := ops[..|ops| - 1], ops[|ops| - 1];
      var c := RunCache(EmptyCache(capacity), init);
      OrderIsRecency(capacity, init);
      RunWellFormed(capacity, init);
      StepIsRecency(capacity, init, op, c);
      assert RunCache(EmptyCache(capacity), ops) == CacheStep(c, op);
      assert ops == init + [op];
    }
  }

  lemma StepIsRecency<K(!new), V>(capacity: int, init: seq<CacheOp<K, V>>, op: CacheOp<K, V>, c: Cache<K, V>)
    requires c == RunCache(EmptyCache(capacity), init) && WellFormed(c)
    requires DescendingBy(c.order, k => LastUse(capacity, init, k))
    ensures DescendingBy(CacheStep(c, op).order, k => LastUse(capacity, init + [op], k))
  {
    var k := op.key;
    var before: K -> int := x => LastUse(capacity, init, x);
    var after: K -> int := x => LastUse(capacity, init + [op], x);
    assert (init + [op])[..|init|] == init;
    forall x
      ensures before(x) < |init|
      ensures after(x) == if x == k && (op.PutOp? || (op.GetOp? && k in c.items)) then |init| else before(x)
    {
      LastUseBound(capacity, init, x);
    }
    if op.PutOp? {
      PutShape(c, k, op.value);
      var r := if k in c.items then c else MakeRoom(c);
      assert DescendingBy(r.order, before);
      FrontDescending(k, r.order, before, after, |init|);
    } else if op.GetOp? && k in c.items {
      FrontDescending(k, c.order, before, after, |init|);
    } else if op.EvictOp? {
      WithoutDescending(c.order, k, after);
    }
  }

  // ----- which values the cache holds

  /** The value last put under `k`, unless `k` has been evicted since. */
  function LastPut<K(==), V>(ops: seq<CacheOp<K, V>>, k: K): Option<V> {
    if ops == [] then None
    else
      match ops[|ops| - 1]
      case PutOp(key, value) => if key == k then Some(value) else LastPut(ops[..|ops| - 1], k)
      case EvictOp(key) => if key == k then None else LastPut(ops[..|ops| - 1], k)
      case GetOp(_) => LastPut(ops[..|ops| - 1], k)
  }

  lemma StepValues<K(!new), V>(c: Cache<K, V>, op: CacheOp<K, V>, k: K)
    requires WellFormed(c)
    ensures var t := CacheStep(c, op);
            k in t.items ==> if op.PutOp? && op.key == k then t.items[k] == op.value
                             else !(op.EvictOp? && op.key == k) && k in c.items && t.items[k] == c.items[k]
  {
    if op.PutOp? {
      TruncateWellFormed(c, if c.order == [] then 0 else |c.order| - 1);
    }
    hide Without;
  }

  /** Whatever the cache holds is what was last put under the key. */
  lemma {:induction false} HoldsLastPut<K(!new), V>(capacity: int, ops: seq<CacheOp<K, V>>, k: K)
    ensures var c := RunCache(EmptyCache(capacity), ops);
            k in c.items ==> LastPut(ops, k) == Some(c.items[k])
    decreases |ops|
  {
    hide CacheStep;
    if ops != [] {
      HoldsLastPut(capacity, ops[..|ops| - 1], k);
      RunWellFormed(capacity, ops[..|ops| - 1]);
      StepValues(RunCache(EmptyCache(capacity), ops[..|ops| - 1]), ops[|ops| - 1], k);
    }
  }

  function KeysPut<K(==), V>(ops: seq<CacheOp<K, V>>): set<K> {
    if ops == [] then {}
    else
      var op := ops[|ops| - 1];
      KeysPut(ops[..|ops| - 1]) + if op.PutOp? then {op.key} else {}
  }

  lemma {:induction false} NoMoreThan<K(!new)>(s: seq<K>, all: set<K>)
    requires Distinct(s) && forall k :: k in s ==> k in all
    ensures |s| <= |all|
    decreases |s|
  {
    if s != [] {
      var init, last := s[..|s| - 1], s[|s| - 1];
      assert last in s && last !in init;
      forall k | k in init
        ensures k in all - {last}
      {
        assert k in s;
      }
      NoMoreThan(init, all - {last});
    }
  }

  lemma StepWithRoom<K(!new), V>(c: Cache<K, V>, op: CacheOp<K, V>, all: set<K>, k: K)
    requires WellFormed(c) && |all| <= c.capacity && (forall x :: x in c.items ==> x in all)
    requires op.PutOp? ==> op.key in all
    ensures forall x :: x in CacheStep(c, op).items ==> x in all
    ensures CacheStep(c, op).capacity == c.capacity
    ensures (op.PutOp? && op.key == k) || (k in c.items && !(op.EvictOp? && op.key == k)) ==>
              k in CacheStep(c, op).items
  {
    if op.PutOp? && op.key !in c.items {
      assert op.key !in c.order;
      assert Distinct(c.order + [op.key]);
      NoMoreThan(c.order + [op.key], all);
    }
    hide Without;
  }

  /** A cache with room for all keys that are ever put drops none: it holds exactly what was last put. */
  lemma {:induction false} RoomForAll<K(!new), V>(capacity: int, ops: seq<CacheOp<K, V>>, all: set<K>, k: K)
    requires KeysPut(ops) <= all && |all| <= EmptyCache<K, V>(capacity).capacity
    ensures Lookup(RunCache(EmptyCache(capacity), ops), k) == LastPut(ops, k)
    ensures forall x :: x in RunCache(EmptyCache(capacity), ops).items ==> x in all
    ensures RunCache(EmptyCache(capacity), ops).capacity == EmptyCache<K, V>(capacity).capacity
    decreases |ops|
  {
    hide CacheStep;
    if ops != [] {
      RoomForAll(capacity, ops[..|ops| - 1], all, k);
      RunWellFormed(capacity, ops[..|ops| - 1]);
      StepWithRoom(RunCache(EmptyCache(capacity), ops[..|ops| - 1]), ops[|ops| - 1], all, k);
      HoldsLastPut(capacity, ops, k);
    }
  }
}
