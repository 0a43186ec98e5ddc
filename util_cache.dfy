// util.Cache: a dictionary whose least recently used half is dropped
// when it is full.

module UtilCache {

  /** Distinct access times: the order the cache sorts by is total. */
  predicate DistinctTimes<K>(times: map<K, nat>)
  {
    forall k1, k2 :: k1 in times && k2 in times && k1 != k2 ==> times[k1] != times[k2]
  }

  /** The cache's invariant, on its three pieces of state. */
  predicate CacheInv<K, V>(dict: map<K, V>, times: map<K, nat>, counter: nat)
  {
    dict.Keys == times.Keys &&
    (forall k :: k in times ==> times[k] < counter) &&
    DistinctTimes(times)
  }

  function Elements<K>(s: seq<K>): set<K>
  {
    set k | k in s
  }

  lemma ElementsSnoc<K>(s: seq<K>, x: K)
    ensures Elements(s + [x]) == Elements(s) + {x}
  {
    assert forall k :: k in s + [x] <==> k in s || k == x;
  }

  lemma ElementsTail<K>(s: seq<K>, from: nat, b: nat)
    requires from <= |s| && b < |s|
    ensures from <= b ==> s[b] in Elements(s[from..])
  {
    if from <= b {
      assert s[from..][b - from] == s[b];
    }
  }

  /** Keys in strictly increasing access time (so no key twice). */
  predicate Sorted<K>(times: map<K, nat>, order: seq<K>)
  {
    (forall i :: 0 <= i < |order| ==> order[i] in times) &&
    forall i, j :: 0 <= i < j < |order| && order[i] in times && order[j] in times ==>
      times[order[i]] < times[order[j]]
  }

  /** Every key of `order` is older than every key of `rest`. */
  predicate Older<K>(times: map<K, nat>, order: seq<K>, rest: set<K>)
  {
    forall i, k :: 0 <= i < |order| && k in rest && order[i] in times && k in times ==>
      times[order[i]] < times[k]
  }

  lemma {:induction false} SortedCard<K>(times: map<K, nat>, s: seq<K>)
    requires Sorted(times, s)
    ensures |Elements(s)| == |s|
    decreases |s|
  {
    if s != [] {
      var t := s[..|s| - 1];
      assert Sorted(times, t);
      SortedCard(times, t);
      assert Elements(s) == Elements(t) + {s[|s| - 1]};
      assert s[|s| - 1] !in Elements(t);
    }
  }

  /** `kept` are the newest entries: all but `dropped` of them, each newer than every entry left out. */
  predicate NewestKept<K>(times: map<K, nat>, kept: set<K>, dropped: int)
  {
    kept <= times.Keys &&
    |kept| == |times| - dropped &&
    forall k, d :: k in kept && d in times && d !in kept ==> times[d] < times[k]
  }

  /** What shrink_size keeps: the len // 2 oldest entries go, the newest len - len // 2 stay. */
  predicate NewestHalf<K>(times: map<K, nat>, kept: set<K>)
  {
    NewestKept(times, kept, |times| / 2)
  }

  /** A non-empty set of keys has one with the smallest access time. */
  lemma {:induction false} OldestExists<K>(s: set<K>, times: map<K, nat>)
    requires s != {} && s <= times.Keys
    ensures exists k :: k in s && forall k2 :: k2 in s ==> times[k] <= times[k2]
    decreases |s|
  {
    var k :| k in s;
    if s != {k} {
      OldestExists(s - {k}, times);
      var m :| m in s - {k} && forall k2 :: k2 in s - {k} ==> times[m] <= times[k2];
      if times[k] < times[m] {
        assert forall k2 :: k2 in s ==> times[k] <= times[k2];
      } else {
        assert forall k2 :: k2 in s ==> times[m] <= times[k2];
      }
    }
  }

  /** Appending the oldest remaining key keeps the order sorted and older than the rest. */
  lemma SortStep<K>(times: map<K, nat>, order: seq<K>, remaining: set<K>, m: K)
    requires DistinctTimes(times) && remaining <= times.Keys && m in remaining
    requires Sorted(times, order) && Older(times, order, remaining)
    requires forall k :: k in remaining ==> times[m] <= times[k]
    ensures Sorted(times, order + [m]) && Older(times, order + [m], remaining - {m})
  {
    var o := order + [m];
    assert forall i :: 0 <= i < |order| ==> o[i] == order[i];
    forall k | k in remaining - {m}
      ensures times[m] < times[k]
    {
      assert times[m] != times[k];
    }
  }

  /** The keys sorted by access time, oldest first (to_sort.sort(key=time)). */
  method SortByTime<K>(times: map<K, nat>) returns (order: seq<K>)
    requires DistinctTimes(times)
    ensures Sorted(times, order) && Elements(order) == times.Keys
  {
    order := [];
    var remaining := times.Keys;
    while remaining != {}
      invariant remaining <= times.Keys
      invariant Elements(order) + remaining == times.Keys
      invariant Sorted(times, order) && Older(times, order, remaining)
      decreases |remaining|
    {
      OldestExists(remaining, times);
      var m :| m in remaining && forall k2 :: k2 in remaining ==> times[m] <= times[k2];
      SortStep(times, order, remaining, m);
      ElementsSnoc(order, m);
      order := order + [m];
      remaining := remaining - {m};
    }
  }

  /** The keys from position `from` of the sorted order are the newest |order| - from. */
  lemma KeepFrom<K>(times: map<K, nat>, order: seq<K>, from: nat)
    requires Sorted(times, order) && Elements(order) == times.Keys && from <= |times|
    ensures |order| == |times|
    ensures NewestKept(times, Elements(order[from..]), from)
  {
    SortedCard(times, order);
    assert |times| == |times.Keys|;
    var tail := order[from..];
    assert Sorted(times, tail);
    SortedCard(times, tail);
    var kept := Elements(tail);
    forall k, d | k in kept && d in times && d !in kept
      ensures times[d] < times[k]
    {
      var a :| 0 <= a < |tail| && tail[a] == k;
      var b :| 0 <= b < |order| && order[b] == d;
      ElementsTail(order, from, b);
      assert order[from + a] == k;
    }
  }

  /** The entries of the listed keys, with their values and times (the rebuild loop). */
  method KeepEntries<K, V>(dict: map<K, V>, times: map<K, nat>, keys: seq<K>)
    returns (newDict: map<K, V>, newTimes: map<K, nat>)
    requires Elements(keys) <= dict.Keys && Elements(keys) <= times.Keys
    ensures newDict.Keys == Elements(keys) && newTimes.Keys == Elements(keys)
    ensures forall k :: k in newDict ==> newDict[k] == dict[k] && newTimes[k] == times[k]
  {
    newDict := map[];
    newTimes := map[];
    var i := 0;
    while i < |keys|
      invariant 0 <= i <= |keys|
      invariant newDict.Keys == Elements(keys[..i]) && newTimes.Keys == Elements(keys[..i])
      invariant forall k :: k in newDict ==> newDict[k] == dict[k] && newTimes[k] == times[k]
    {
      var k := keys[i];
      assert keys[..i + 1] == keys[..i] + [k];
      assert Elements(keys[..i + 1]) == Elements(keys[..i]) + {k};
      newDict := newDict[k := dict[k]];
      newTimes := newTimes[k := times[k]];
      i := i + 1;
    }
    assert keys[..i] == keys;
  }

  /**
   * shrink_size's work: sorts the entries by access time and rebuilds the
   * dictionaries from the newest all-but-`dropped` of them.
   */
  method ShrinkBy<K, V>(dict: map<K, V>, times: map<K, nat>, counter: nat, dropped: nat)
    returns (newDict: map<K, V>, newTimes: map<K, nat>)
    requires CacheInv(dict, times, counter) && dropped <= |times|
    ensures CacheInv(newDict, newTimes, counter)
    ensures NewestKept(times, newDict.Keys, dropped)
    ensures forall k :: k in newDict ==> newDict[k] == dict[k] && newTimes[k] == times[k]
  {
    var order := SortByTime(times);
    KeepFrom(times, order, dropped);
    newDict, newTimes := KeepEntries(dict, times, order[dropped..]);
    RestrictKeepsInv(dict, times, counter, newDict, newTimes);
  }

  /** Keeping some of the entries keeps the invariant. */
  lemma RestrictKeepsInv<K, V>(dict: map<K, V>, times: map<K, nat>, counter: nat,
                              newDict: map<K, V>, newTimes: map<K, nat>)
    requires CacheInv(dict, times, counter)
    requires newDict.Keys == newTimes.Keys && newTimes.Keys <= times.Keys
    requires forall k :: k in newTimes ==> newTimes[k] == times[k]
    ensures CacheInv(newDict, newTimes, counter)
  {
  }

  /** Storing a key with the next access time keeps the invariant. */
  lemma StoreKeepsInv<K, V>(dict: map<K, V>, times: map<K, nat>, counter: nat, key: K, value: V)
    requires CacheInv(dict, times, counter)
    ensures CacheInv(dict[key := value], times[key := counter], counter + 1)
  {
  }

  /** One more key adds at most one entry. */
  lemma AddOne<K>(s: set<K>, key: K)
    ensures |s + {key}| <= |s| + 1
  {
    if key !in s {
      assert |s + {key}| == |s| + 1;
    } else {
      assert s + {key} == s;
    }
  }

  /** As written: with size at least 2, shrinking a full cache and adding one stays within size. */
  lemma ShrinkThenAddBounded<K>(size: int, times: map<K, nat>, kept: set<K>, key: K)
    requires size >= 2 && |times| == size && NewestHalf(times, kept)
    ensures |kept + {key}| <= size
  {
    AddOne(kept, key);
  }

  /**
   * Cache(1) is never bounded: with one entry, shrink_size keeps
   * all 1 - 1 // 2 = 1 of them, and the new key makes two.
   */
  lemma SizeOneCacheGrows<K>(times: map<K, nat>, kept: set<K>, k: K, key: K)
    requires times.Keys == {k} && key != k
    requires NewestHalf(times, kept)
    ensures kept == {k} && |kept + {key}| == 2
  {
    assert |times| == |times.Keys| == 1;
    assert kept <= {k} && |kept| == 1;
    assert k in kept;
  }

  /** The corrected shrink: at least one entry goes, even when len // 2 is 0. */
  function EvictCount(n: nat): (drop: nat)
    ensures n > 0 ==> 1 <= drop <= n
    ensures n >= 2 ==> drop == n / 2
  {
    if n / 2 >= 1 then n / 2 else if n > 0 then 1 else 0
  }

  predicate NewestEvicting<K>(times: map<K, nat>, kept: set<K>)
  {
    NewestKept(times, kept, EvictCount(|times|))
  }

  /** With the corrected shrink, a full cache of any positive size stays within its size. */
  lemma EvictingThenAddBounded<K>(size: int, times: map<K, nat>, kept: set<K>, key: K)
    requires size >= 1 && |times| >= size && NewestEvicting(times, kept)
    ensures |kept + {key}| <= |times|
  {
    AddOne(kept, key);
  }

  class Cache<K(==), V> {
    const size: int
    var dict: map<K, V>
    /** itertools.count(): the next access time handed out. */
    var counter: nat
    var accessTimes: map<K, nat>

    predicate Valid()
      reads this
    {
      CacheInv(dict, accessTimes, counter)
    }

    constructor(size: int)
      ensures Valid() && this.size == size
      ensures dict == map[] && accessTimes == map[] && counter == 0
    {
      this.size := size;
      dict := map[];
      counter := 0;
      accessTimes := map[];
    }

    /**
     * get: a hit refreshes the access time; a miss sets and returns
     * `created`, the value create_new_value returns on this call. Subclasses
     * supply that hook and may return a new value on every call, so it is a
     * parameter rather than a function of the key.
     */
    method Get(key: K, created: V) returns (v: V)
      requires Valid()
      modifies this
      ensures Valid()
      ensures key in old(dict) ==>
        (v == old(dict)[key] && dict == old(dict) &&
         accessTimes == old(accessTimes)[key := old(counter)] && counter == old(counter) + 1)
      ensures key !in old(dict) ==> v == created && key in dict && dict[key] == v
      ensures key !in old(dict) && |old(dict)| != size ==>
        dict == old(dict)[key := v] && accessTimes == old(accessTimes)[key := old(counter)]
      ensures key !in old(dict) && |old(dict)| == size ==>
        (exists kept :: NewestHalf(old(accessTimes), kept) && dict.Keys == kept + {key}) &&
        accessTimes[key] == old(counter) &&
        forall k :: k in dict && k != key ==>
          k in old(dict) && dict[k] == old(dict)[k] && accessTimes[k] == old(accessTimes)[k]
    {
      if key in dict {
        StoreKeepsInv(dict, accessTimes, counter, key, dict[key]);
        assert dict[key := dict[key]] == dict;
        accessTimes := accessTimes[key := counter];
        counter := counter + 1;
        v := dict[key];
      } else {
        v := created;
        Set(key, v);
      }
    }

    /** Records the next access time for the key and stores the value. */
    method Store(key: K, value: V)
      requires Valid()
      modifies this
      ensures Valid()
      ensures dict == old(dict)[key := value] && accessTimes == old(accessTimes)[key := old(counter)]
      ensures counter == old(counter) + 1
    {
      StoreKeepsInv(dict, accessTimes, counter, key, value);
      accessTimes := accessTimes[key := counter];
      counter := counter + 1;
      dict := dict[key := value];
    }

    /** set: shrinks first when the cache holds exactly `size` entries, then stores the value. */
    method Set(key: K, value: V)
      requires Valid()
      modifies this
      ensures Valid()
      ensures key in dict && dict[key] == value && accessTimes[key] == old(counter)
      ensures counter == old(counter) + 1
      ensures |old(dict)| != size ==>
        dict == old(dict)[key := value] && accessTimes == old(accessTimes)[key := old(counter)]
      ensures |old(dict)| == size ==> exists kept ::
        (NewestHalf(old(accessTimes), kept) && dict.Keys == kept + {key})
      ensures forall k :: k in dict && k != key ==>
        k in old(dict) && dict[k] == old(dict)[k] && accessTimes[k] == old(accessTimes)[k]
      ensures |old(dict)| <= size && size >= 2 ==> |dict| <= size
    {
      if |dict| == size {
        assert |accessTimes| == |dict| by {
          assert accessTimes.Keys == dict.Keys;
        }
        ShrinkSize();
        ghost var kept := dict.Keys;
        ghost var shrunk, shrunkTimes := dict, accessTimes;
        Store(key, value);
        assert dict == shrunk[key := value] && accessTimes == shrunkTimes[key := old(counter)];
        assert dict.Keys == kept + {key};
        if size >= 2 {
          ShrinkThenAddBounded(size, old(accessTimes), kept, key);
        }
      } else {
        ghost var before := dict.Keys;
        ghost var held, heldTimes := dict, accessTimes;
        Store(key, value);
        assert dict == held[key := value] && accessTimes == heldTimes[key := old(counter)];
        assert dict.Keys == before + {key};
        AddOne(before, key);
      }
    }

    /**
     * shrink_size: sorts the entries by access time and keeps the newest
     * len - len // 2 of them, with their values and times.
     */
    method ShrinkSize()
      requires Valid()
      modifies this
      ensures Valid() && counter == old(counter)
      ensures NewestHalf(old(accessTimes), dict.Keys)
      ensures forall k :: k in dict ==>
        k in old(dict) && dict[k] == old(dict)[k] && accessTimes[k] == old(accessTimes)[k]
    {
      assert |accessTimes| == |dict| by {
        assert accessTimes.Keys == dict.Keys;
      }
      dict, accessTimes := ShrinkBy(dict, accessTimes, counter, |dict| / 2);
    }

    /**
     * The corrected set: shrinks once the cache is full or over, dropping at
     * least one entry, so a cache of any positive size stays within it.
     */
    method SetEvicting(key: K, value: V)
      requires Valid() && size >= 1 && |dict| <= size
      modifies this
      ensures Valid() && |dict| <= size
      ensures key in dict && dict[key] == value && accessTimes[key] == old(counter)
      ensures forall k :: k in dict && k != key ==>
        k in old(dict) && dict[k] == old(dict)[k] && accessTimes[k] == old(accessTimes)[k]
    {
      assert |accessTimes| == |dict| by {
        assert accessTimes.Keys == dict.Keys;
      }
      if |dict| >= size {
        ShrinkEvicting();
        ghost var kept := dict.Keys;
        Store(key, value);
        assert dict.Keys == kept + {key};
        EvictingThenAddBounded(size, old(accessTimes), kept, key);
      } else {
        ghost var before := dict.Keys;
        Store(key, value);
        assert dict.Keys == before + {key};
        AddOne(before, key);
      }
    }

    /** The corrected shrink_size: keeps all but EvictCount(len) of the newest entries. */
    method ShrinkEvicting()
      requires Valid()
      modifies this
      ensures Valid() && counter == old(counter)
      ensures NewestEvicting(old(accessTimes), dict.Keys)
      ensures forall k :: k in dict ==> dict[k] == old(dict)[k] && accessTimes[k] == old(accessTimes)[k]
    {
      assert |accessTimes| == |dict| by {
        assert accessTimes.Keys == dict.Keys;
      }
      dict, accessTimes := ShrinkBy(dict, accessTimes, counter, EvictCount(|dict|));
    }
  }
}
