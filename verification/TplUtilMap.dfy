/** The chained hash map with destructors, over any hash function and any compare
    function that is zero exactly on equal keys. Contents is the finite map it stands
    for; two histories record what was entrusted to the map and what it destroyed. */
module TplUtilMap {
  import opened Collections

  /** A data pointer and the function that frees it, NULL if none. */
  datatype Stored = Stored(data: Pointer, freeFunc: Pointer)

  function Pow2(bits: nat): (size: nat)
    ensures size > 0
  {
    if bits == 0 then 1 else 2 * Pow2(bits - 1)
  }

  ghost predicate ZeroOnEqual<K(!new)>(compare: (K, K) -> int) {
    forall a, b :: compare(a, b) == 0 <==> a == b
  }

  /** The comparator of the 64-bit map: a difference of unsigned words narrowed to int. */
  function Int64KeyCompare(a: nat, b: nat): int {
    var low := (a - b) % 0x1_0000_0000_0000_0000 % 0x1_0000_0000;
    if low < 0x8000_0000 then low else low - 0x1_0000_0000
  }

  /** It calls two keys equal exactly when they agree in their low 32 bits. */
  lemma Int64CompareIff(a: nat, b: nat)
    ensures Int64KeyCompare(a, b) == 0 <==> a % 0x1_0000_0000 == b % 0x1_0000_0000
    ensures !ZeroOnEqual(Int64KeyCompare)
  {
    LowWord(a - b);
    SameLowWord(a, b);
    assert Int64KeyCompare(0x1_0000_0000, 0) == 0;
  }

  /** So among given keys it is zero on equal keys only, exactly when their low 32 bits differ
      pairwise. */
  lemma Int64CompareSuits(keys: set<nat>)
    ensures (forall a, b | a in keys && b in keys :: Int64KeyCompare(a, b) == 0 <==> a == b)
       <==> (forall a, b | a in keys && b in keys && a != b :: a % 0x1_0000_0000 != b % 0x1_0000_0000)
  {
    forall a, b | a in keys && b in keys
      ensures Int64KeyCompare(a, b) == 0 <==> a % 0x1_0000_0000 == b % 0x1_0000_0000
    {
      Int64CompareIff(a, b);
    }
  }

  type Word = k: nat | k < 0x1_0000_0000

  /** In particular the map may be used with it over keys below 2^32. */
  lemma Int64CompareSuitsWords()
    ensures ZeroOnEqual((a: Word, b: Word) => Int64KeyCompare(a, b))
  {
    forall a: Word, b: Word ensures Int64KeyCompare(a, b) == 0 <==> a == b {
      Int64CompareIff(a, b);
    }
  }

  lemma LowWord(d: int)
    ensures d % 0x1_0000_0000_0000_0000 % 0x1_0000_0000 == d % 0x1_0000_0000
  {
    var q, r := d / 0x1_0000_0000_0000_0000, d % 0x1_0000_0000_0000_0000;
    assert d == q * 0x1_0000_0000 * 0x1_0000_0000 + r;
    MultipleDrops(r, q * 0x1_0000_0000);
  }

  lemma MultipleDrops(r: int, n: int)
    ensures (n * 0x1_0000_0000 + r) % 0x1_0000_0000 == r % 0x1_0000_0000
  {
  }

  lemma SameLowWord(a: int, b: int)
    ensures (a - b) % 0x1_0000_0000 == 0 <==> a % 0x1_0000_0000 == b % 0x1_0000_0000
  {
  }

  class Entry<K> {
    const key: K
    var data: Pointer
    var freeFunc: Pointer
    var next: Entry?<K>

    constructor (key: K, data: Pointer, freeFunc: Pointer, next: Entry?<K>)
      ensures this.key == key && this.data == data && this.freeFunc == freeFunc && this.next == next
    {
      this.key, this.data, this.freeFunc, this.next := key, data, freeFunc, next;
    }
  }

  ghost predicate Linked<K>(first: Entry?<K>, chain: seq<Entry<K>>)
    reads chain
  {
    && Distinct(chain)
    && first == (if chain == [] then null else chain[0])
    && (forall i {:trigger chain[i].next} | 0 <= i < |chain| ::
          chain[i].next == if i + 1 == |chain| then null else chain[i + 1])
  }

  ghost function KeysOf<K>(chain: seq<Entry<K>>): (keys: seq<K>)
    ensures |keys| == |chain|
    ensures forall i | 0 <= i < |chain| :: keys[i] == chain[i].key
  {
    seq(|chain|, i requires 0 <= i < |chain| => chain[i].key)
  }

  ghost function ValuesOf<K>(chain: seq<Entry<K>>): (values: seq<Stored>)
    reads chain
    ensures |values| == |chain|
    ensures forall i | 0 <= i < |chain| :: values[i] == Stored(chain[i].data, chain[i].freeFunc)
  {
    seq(|chain|, i requires 0 <= i < |chain| reads chain => Stored(chain[i].data, chain[i].freeFunc))
  }

  /** hash & bucket_mask, on a two's complement hash. */
  function BucketOf(hash: int, bucketSize: nat): (b: nat)
    requires bucketSize > 0
    ensures b < bucketSize
  {
    hash % bucketSize
  }

  /** The bucket of each key. */
  ghost function Placement<K(!new)>(hash: K -> int, size: nat): (place: K -> nat)
    requires size > 0
    ensures forall k :: place(k) == BucketOf(hash(k), size)
  {
    k => BucketOf(hash(k), size)
  }

  ghost predicate StandsFor<K(!new)>(footprint: set<object>, first: Entry?<K>, chain: seq<Entry<K>>,
                                     bucket: nat, size: nat, hash: K -> int, contents: map<K, Stored>)
    requires size > 0
    reads footprint
  {
    && (forall i | 0 <= i < |chain| :: chain[i] in footprint)
    && Linked(first, chain) && Represents(KeysOf(chain), ValuesOf(chain), bucket, Placement(hash, size), contents)
  }

  // ---------------------------------------------------------------------------
  // The meaning of the operations
  // ---------------------------------------------------------------------------

  /** What tpl_util_map_set makes of the map: NULL data deletes. */
  function SetIn<K(==)>(m: map<K, Stored>, key: K, v: Stored): map<K, Stored> {
    if v.data != NULL then m[key := v] else m - {key}
  }

  /** The free calls of tpl_util_map_set: the value the key had before, if it has a free function. */
  function FreedBySet<K(==)>(m: map<K, Stored>, key: K): seq<(K, Stored)> {
    if key in m && m[key].freeFunc != NULL then [(key, m[key])] else []
  }

  /** What a set entrusts to the map. */
  function EntrustedBySet<K(==)>(key: K, v: Stored): seq<(K, Stored)> {
    if v.data != NULL && v.freeFunc != NULL then [(key, v)] else []
  }

  /** The entries the map still has to free. */
  ghost function Live<K>(m: map<K, Stored>): multiset<(K, Stored)> {
    multiset(set p | p in m.Items && p.1.freeFunc != NULL)
  }

  ghost function LiveOthers<K>(m: map<K, Stored>, key: K): set<(K, Stored)> {
    set p | p in m.Items && p.1.freeFunc != NULL && p.0 != key
  }

  lemma LiveSplit<K>(m: map<K, Stored>, key: K)
    ensures Live(m) == multiset(LiveOthers(m, key)) + multiset(FreedBySet(m, key))
  {
    var all := set p | p in m.Items && p.1.freeFunc != NULL;
    if key in m && m[key].freeFunc != NULL {
      assert all == LiveOthers(m, key) + {(key, m[key])};
    } else {
      assert all == LiveOthers(m, key);
    }
  }

  lemma OthersAgree<K>(m: map<K, Stored>, m': map<K, Stored>, key: K)
    requires forall k | k != key :: k in m <==> k in m'
    requires forall k | k != key && k in m :: m[k] == m'[k]
    ensures LiveOthers(m, key) == LiveOthers(m', key)
  {
    forall p ensures p in LiveOthers(m, key) <==> p in LiveOthers(m', key) {
      assert p in m.Items <==> p.0 in m && m[p.0] == p.1;
      assert p in m'.Items <==> p.0 in m' && m'[p.0] == p.1;
    }
  }

  /** A set frees what it displaces and takes on what it stores. */
  lemma SetConserves<K>(m: map<K, Stored>, key: K, v: Stored)
    ensures Live(m) + multiset(EntrustedBySet(key, v)) == Live(SetIn(m, key, v)) + multiset(FreedBySet(m, key))
  {
    LiveSplit(m, key);
    LiveSplit(SetIn(m, key, v), key);
    OthersAgree(m, SetIn(m, key, v), key);
  }

  lemma DropConserves<K>(m: map<K, Stored>, key: K)
    ensures Live(m) == multiset(FreedBySet(m, key)) + Live(m - {key})
  {
    LiveSplit(m, key);
    LiveSplit(m - {key}, key);
    OthersAgree(m, m - {key}, key);
    assert multiset(FreedBySet(m - {key}, key)) == multiset{};
  }

  lemma Carry<T>(entrusted: multiset<T>, destroyed: multiset<T>, live: multiset<T>, more: multiset<T>,
                 live': multiset<T>, freed: multiset<T>)
    requires entrusted == destroyed + live && live + more == live' + freed
    ensures entrusted + more == destroyed + freed + live'
  {
    assert entrusted + more == destroyed + (live + more);
  }

  // ---------------------------------------------------------------------------
  // Work on one bucket
  // ---------------------------------------------------------------------------

  /** The existing-entry branch of tpl_util_map_set with new data. */
  method Overwrite<K(!new)>(entry: Entry<K>, v: Stored, ghost footprint: set<object>, ghost first: Entry?<K>,
                            ghost chain: seq<Entry<K>>, ghost at: nat, ghost bucket: nat, ghost size: nat,
                            ghost hash: K -> int, ghost contents: map<K, Stored>)
    requires size > 0 && StandsFor(footprint, first, chain, bucket, size, hash, contents)
    requires at < |chain| && entry == chain[at]
    modifies entry
    ensures StandsFor(footprint, first, chain, bucket, size, hash, contents[entry.key := v])
  {
    ReplaceEntry(KeysOf(chain), ValuesOf(chain), bucket, Placement(hash, size), contents, at, v);
    entry.data := v.data;
    entry.freeFunc := v.freeFunc;
    assert ValuesOf(chain) == old(ValuesOf(chain))[at := v];
  }

  lemma EntriesWithout<K>(chain: seq<Entry<K>>, k: nat)
    requires k < |chain|
    ensures KeysOf(Without(chain, k)) == Without(KeysOf(chain), k)
    ensures ValuesOf(Without(chain, k)) == Without(ValuesOf(chain), k)
  {
  }

  lemma EntriesCons<K>(entry: Entry<K>, chain: seq<Entry<K>>)
    ensures KeysOf([entry] + chain) == [entry.key] + KeysOf(chain)
    ensures ValuesOf([entry] + chain) == [Stored(entry.data, entry.freeFunc)] + ValuesOf(chain)
  {
  }

  /** Takes an entry out of its bucket; `first'` is the new start of the bucket. */
  method Unlink<K>(entry: Entry<K>, prev: Entry?<K>, first: Entry?<K>, ghost chain: seq<Entry<K>>, ghost at: nat)
    returns (first': Entry?<K>)
    requires Linked(first, chain) && at < |chain| && entry == chain[at]
    requires prev == if at == 0 then null else chain[at - 1]
    modifies chain`next
    ensures Linked(first', Without(chain, at))
  {
    first' := first;
    if prev != null {
      prev.next := entry.next;
    } else {
      first' := entry.next;
    }
    WithoutAt(chain, at);
  }

  /** The existing-entry branch of tpl_util_map_set with NULL data. */
  method DeleteEntry<K(!new)>(entry: Entry<K>, prev: Entry?<K>, first: Entry?<K>, ghost footprint: set<object>,
                              ghost chain: seq<Entry<K>>, ghost at: nat, ghost bucket: nat, ghost size: nat,
                              ghost hash: K -> int, ghost contents: map<K, Stored>)
    returns (first': Entry?<K>)
    requires size > 0 && StandsFor(footprint, first, chain, bucket, size, hash, contents)
    requires at < |chain| && entry == chain[at] && prev == (if at == 0 then null else chain[at - 1])
    modifies footprint
    ensures StandsFor(footprint, first', Without(chain, at), bucket, size, hash, contents - {entry.key})
  {
    DropEntry(KeysOf(chain), ValuesOf(chain), bucket, Placement(hash, size), contents, at);
    first' := Unlink(entry, prev, first, chain, at);
    assert ValuesOf(chain) == old(ValuesOf(chain));
    WithoutAt(chain, at);
    EntriesWithout(chain, at);
  }

  // ---------------------------------------------------------------------------
  // All buckets together
  // ---------------------------------------------------------------------------

  /** Every bucket stands for its entries; the chains lie in `entries` and share no object. */
  ghost predicate AllStand<K(!new)>(entries: set<object>, footprints: seq<set<object>>, firsts: seq<Entry?<K>>,
                                    chains: seq<seq<Entry<K>>>, hash: K -> int, contents: map<K, Stored>)
    reads entries
  {
    && |firsts| == |chains| == |footprints| > 0
    && (forall i | 0 <= i < |footprints| :: footprints[i] <= entries)
    && (forall i, j | 0 <= i < j < |footprints| :: footprints[i] !! footprints[j])
    && forall i | 0 <= i < |footprints| ::
         StandsFor(footprints[i], firsts[i], chains[i], i, |footprints|, hash, contents)
  }

  /** Only the bucket of `key` and the entry of `key` differ from what stood before. */
  lemma Reassemble<K(!new)>(entries: set<object>, footprints: seq<set<object>>, firsts: seq<Entry?<K>>,
                            chains: seq<seq<Entry<K>>>, hash: K -> int, before: map<K, Stored>,
                            contents: map<K, Stored>, index: nat, key: K)
    requires |firsts| == |chains| == |footprints| > 0 && index == BucketOf(hash(key), |footprints|)
    requires forall i | 0 <= i < |footprints| :: footprints[i] <= entries
    requires forall i, j | 0 <= i < j < |footprints| :: footprints[i] !! footprints[j]
    requires StandsFor(footprints[index], firsts[index], chains[index], index, |footprints|, hash, contents)
    requires forall i | 0 <= i < |footprints| && i != index ::
               StandsFor(footprints[i], firsts[i], chains[i], i, |footprints|, hash, before)
    requires forall k | k != key :: k in before <==> k in contents
    requires forall k | k != key && k in before :: before[k] == contents[k]
    ensures AllStand(entries, footprints, firsts, chains, hash, contents)
  {
    forall i | 0 <= i < |footprints| && i != index
      ensures StandsFor(footprints[i], firsts[i], chains[i], i, |footprints|, hash, contents)
    {
      OtherEntry(KeysOf(chains[i]), ValuesOf(chains[i]), i, Placement(hash, |footprints|), before, contents, key);
    }
  }

  lemma EmptyStands<K(!new)>(size: nat, hash: K -> int)
    requires size > 0
    ensures AllStand({}, seq(size, _ => {}), seq(size, _ => null), seq(size, _ => []), hash, map[])
    ensures Live<K>(map[]) == multiset{}
  {
  }

  class UtilMap<K(==,!new)> {
    const bucketSize: nat
    const hash: K -> int
    const compare: (K, K) -> int
    const buckets: array<Entry?<K>>
    ghost var chains: seq<seq<Entry<K>>>
    ghost var footprints: seq<set<object>>
    ghost var entries: set<object>
    ghost var contents: map<K, Stored>
    ghost var entrusted: multiset<(K, Stored)>  // history of values stored with a free function
    ghost var destroyed: multiset<(K, Stored)>  // history of free function calls

    ghost predicate Valid()
      reads this, buckets, entries
    {
      && bucketSize > 0 && buckets.Length == |footprints| == bucketSize
      && ZeroOnEqual(compare)
      && buckets !in entries && this !in entries
      && AllStand(entries, footprints, buckets[..], chains, hash, contents)
      && entrusted == destroyed + Live(contents)
    }

    /** tpl_util_map_create: buckets come zeroed. */
    constructor (bucketBits: nat, hash: K -> int, compare: (K, K) -> int)
      requires ZeroOnEqual(compare)
      ensures Valid() && fresh(buckets) && entries == {} && contents == map[] && entrusted == destroyed == multiset{}
      ensures this.hash == hash && this.compare == compare && bucketSize == Pow2(bucketBits)
    {
      this.hash, this.compare := hash, compare;
      bucketSize := Pow2(bucketBits);
      var bs := new Entry?<K>[Pow2(bucketBits)](_ => null);
      buckets := bs;
      chains := seq(Pow2(bucketBits), _ => []);
      footprints := seq(Pow2(bucketBits), _ => {});
      entries := {};
      contents, entrusted, destroyed := map[], multiset{}, multiset{};
    }

    ghost function Bucket(key: K): (index: nat)
      requires Valid()
      reads this, buckets, entries
      ensures index < bucketSize
      ensures StandsFor(footprints[index], buckets[index], chains[index], index, bucketSize, hash, contents)
    {
      BucketOf(hash(key), bucketSize)
    }

    /** The search both get and set begin with. */
    method Find(key: K) returns (curr: Entry?<K>, prev: Entry?<K>, ghost at: nat)
      requires Valid()
      ensures curr == null <==> key !in contents
      ensures curr != null ==>
                IsAt(curr, prev, at) && curr.key == key && contents[key] == Stored(curr.data, curr.freeFunc)
    {
      ghost var chain := chains[Bucket(key)];
      curr := buckets[BucketOf(hash(key), bucketSize)];
      prev := null;
      at := 0;
      while curr != null
        invariant at <= |chain| && curr == if at == |chain| then null else chain[at]
        invariant prev == if at == 0 then null else chain[at - 1]
        invariant forall i | 0 <= i < at :: KeysOf(chain)[i] != key
        decreases |chain| - at
      {
        assert KeysOf(chain)[at] == curr.key && ValuesOf(chain)[at] == Stored(curr.data, curr.freeFunc);
        if compare(curr.key, key) == 0 {
          return;
        }
        prev := curr;
        curr := curr.next;
        at := at + 1;
      }
      assert key !in KeysOf(chain);
    }

    /** curr is the at-th entry of its bucket and prev the one before it. */
    ghost predicate IsAt(curr: Entry<K>, prev: Entry?<K>, at: nat)
      requires Valid()
      reads this, buckets, entries
    {
      var chain := chains[Bucket(curr.key)];
      at < |chain| && curr == chain[at] && prev == if at == 0 then null else chain[at - 1]
    }

    method Get(key: K) returns (data: Pointer)
      requires Valid()
      ensures data == if key in contents then contents[key].data else NULL
    {
      var curr, _, _ := Find(key);
      data := if curr != null then curr.data else NULL;
    }

    /** The histories after one call: what it freed is what it displaces. */
    ghost method Account(key: K, v: Stored, freed: seq<(K, Stored)>)
      requires entrusted == destroyed + Live(contents) && freed == FreedBySet(contents, key)
      modifies this`contents, this`entrusted, this`destroyed
      ensures contents == SetIn(old(contents), key, v)
      ensures entrusted == old(entrusted) + multiset(EntrustedBySet(key, v))
      ensures destroyed == old(destroyed) + multiset(freed)
      ensures entrusted == destroyed + Live(contents)
    {
      SetConserves(contents, key, v);
      Carry(entrusted, destroyed, Live(contents), multiset(EntrustedBySet(key, v)), Live(SetIn(contents, key, v)),
            multiset(freed));
      entrusted := entrusted + multiset(EntrustedBySet(key, v));
      destroyed := destroyed + multiset(freed);
      contents := SetIn(contents, key, v);
    }

    /** New data for an entry whose previous data has been freed. */
    method SetExisting(curr: Entry<K>, prev: Entry?<K>, v: Stored, ghost at: nat, ghost freed: seq<(K, Stored)>)
      requires Valid() && v.data != NULL && IsAt(curr, prev, at) && freed == FreedBySet(contents, curr.key)
      modifies this, buckets, entries
      ensures Valid() && entries == old(entries) && contents == SetIn(old(contents), curr.key, v)
      ensures entrusted == old(entrusted) + multiset(EntrustedBySet(curr.key, v))
      ensures destroyed == old(destroyed) + multiset(freed)
    {
      ghost var index, before := Bucket(curr.key), contents;
      Overwrite(curr, v, footprints[index], buckets[index], chains[index], at, index, bucketSize, hash, before);
      Account(curr.key, v, freed);
      forall i | 0 <= i < bucketSize && i != index
        ensures StandsFor(footprints[i], buckets[i], chains[i], i, bucketSize, hash, before)
      {
        assert old(StandsFor(footprints[i], buckets[..][i], chains[i], i, bucketSize, hash, contents));
      }
      Reassemble(entries, footprints, buckets[..], chains, hash, before, contents, index, curr.key);
    }

    /** Takes an entry out of its chain; `first` is what its bucket must hold then. */
    method DeleteFromChain(curr: Entry<K>, prev: Entry?<K>, ghost at: nat)
      returns (first: Entry?<K>, ghost chains': seq<seq<Entry<K>>>)
      requires Valid() && IsAt(curr, prev, at)
      modifies footprints[Bucket(curr.key)]
      ensures buckets[..] == old(buckets[..])
      ensures AllStand(entries, footprints, buckets[..][BucketOf(hash(curr.key), bucketSize) := first], chains', hash,
                       contents - {curr.key})
    {
      ghost var index, firsts := Bucket(curr.key), buckets[..];
      first := DeleteEntry(curr, prev, buckets[BucketOf(hash(curr.key), bucketSize)], footprints[index], chains[index],
                           at, index, bucketSize, hash, contents);
      forall i | 0 <= i < bucketSize && i != index
        ensures StandsFor(footprints[i], firsts[i], chains[i], i, bucketSize, hash, contents)
      {
        assert old(StandsFor(footprints[i], buckets[..][i], chains[i], i, bucketSize, hash, contents));
      }
      chains' := chains[index := Without(chains[index], at)];
      Reassemble(entries, footprints, firsts[index := first], chains', hash, contents, contents - {curr.key}, index,
                 curr.key);
    }

    /** Stores the new start of a bucket. */
    method StoreBucket(index: nat, first: Entry?<K>, ghost entries': set<object>, ghost footprints': seq<set<object>>,
                       ghost chains': seq<seq<Entry<K>>>, ghost m: map<K, Stored>)
      requires |footprints'| == bucketSize == buckets.Length && index < bucketSize
      requires buckets !in entries' && this !in entries'
      requires AllStand(entries', footprints', buckets[..][index := first], chains', hash, m)
      modifies this`entries, this`footprints, this`chains, buckets
      ensures entries == entries' && footprints == footprints' && chains == chains'
      ensures AllStand(entries, footprints, buckets[..], chains, hash, m)
    {
      ghost var firsts := buckets[..][index := first];
      buckets[index] := first;
      assert buckets[..] == firsts;
      entries, footprints, chains := entries', footprints', chains';
    }

    /** Stores the new start of a bucket and settles the account of the call. */
    method Install(index: nat, first: Entry?<K>, ghost entries': set<object>, ghost footprints': seq<set<object>>,
                   ghost chains': seq<seq<Entry<K>>>, ghost key: K, ghost v: Stored, ghost freed: seq<(K, Stored)>)
      requires |footprints'| == bucketSize == buckets.Length > 0 && index < bucketSize && ZeroOnEqual(compare)
      requires buckets !in entries' && this !in entries' && entrusted == destroyed + Live(contents)
      requires freed == FreedBySet(contents, key)
      requires AllStand(entries', footprints', buckets[..][index := first], chains', hash, SetIn(contents, key, v))
      modifies this, buckets
      ensures Valid() && entries == entries' && contents == SetIn(old(contents), key, v)
      ensures entrusted == old(entrusted) + multiset(EntrustedBySet(key, v))
      ensures destroyed == old(destroyed) + multiset(freed)
    {
      StoreBucket(index, first, entries', footprints', chains', SetIn(contents, key, v));
      Account(key, v, freed);
    }

    /** Deletes an entry whose data has been freed. */
    method DeleteExisting(curr: Entry<K>, prev: Entry?<K>, freeFunc: Pointer, ghost at: nat,
                          ghost freed: seq<(K, Stored)>)
      requires Valid() && IsAt(curr, prev, at) && freed == FreedBySet(contents, curr.key)
      modifies this, buckets, entries
      ensures Valid() && entries == old(entries) && contents == old(contents) - {curr.key}
      ensures entrusted == old(entrusted)
      ensures destroyed == old(destroyed) + multiset(freed)
    {
      var first, chains' := DeleteFromChain(curr, prev, at);
      Install(BucketOf(hash(curr.key), bucketSize), first, entries, footprints, chains', curr.key,
              Stored(NULL, freeFunc), freed);
    }

    /** Makes an entry for a key that has none, in front of its chain. */
    method NewEntry(key: K, v: Stored)
      returns (entry: Entry<K>, ghost chains': seq<seq<Entry<K>>>, ghost footprints': seq<set<object>>)
      requires Valid() && key !in contents
      ensures fresh(entry)
      ensures footprints' == footprints[Bucket(key) := footprints[Bucket(key)] + {entry}]
      ensures AllStand(entries + {entry}, footprints', buckets[..][BucketOf(hash(key), bucketSize) := entry],
                       chains', hash, contents[key := v])
    {
      ghost var index, firsts := Bucket(key), buckets[..];
      AddEntry(KeysOf(chains[index]), ValuesOf(chains[index]), Placement(hash, bucketSize), contents, key, v);
      entry := new Entry(key, v.data, v.freeFunc, buckets[BucketOf(hash(key), bucketSize)]);
      EntriesCons(entry, chains[index]);
      chains' := chains[index := [entry] + chains[index]];
      footprints' := footprints[index := footprints[index] + {entry}];
      forall i | 0 <= i < bucketSize && i != index
        ensures StandsFor(footprints[i], firsts[i], chains[i], i, bucketSize, hash, contents)
      {
        assert old(StandsFor(footprints[i], buckets[..][i], chains[i], i, bucketSize, hash, contents));
      }
      Reassemble(entries + {entry}, footprints', firsts[index := entry], chains', hash, contents, contents[key := v],
                 index, key);
    }

    method AddNew(key: K, v: Stored)
      requires Valid() && key !in contents && v.data != NULL
      modifies this, buckets, entries
      ensures Valid() && fresh(entries - old(entries)) && contents == SetIn(old(contents), key, v)
      ensures entrusted == old(entrusted) + multiset(EntrustedBySet(key, v)) && destroyed == old(destroyed)
    {
      var entry, chains', footprints' := NewEntry(key, v);
      Install(BucketOf(hash(key), bucketSize), entry, entries + {entry}, footprints', chains', key, v, []);
    }

    /** tpl_util_map_set; `freed` are the values whose free function it calls. */
    method Set(key: K, data: Pointer, freeFunc: Pointer) returns (freed: seq<(K, Stored)>)
      requires Valid()
      modifies this, buckets, entries
      ensures Valid() && fresh(entries - old(entries))
      ensures contents == SetIn(old(contents), key, Stored(data, freeFunc))
      ensures entrusted == old(entrusted) + multiset(EntrustedBySet(key, Stored(data, freeFunc)))
      ensures freed == FreedBySet(old(contents), key) && destroyed == old(destroyed) + multiset(freed)
    {
      var curr, prev, at := Find(key);
      freed := [];
      if curr != null {
        freed := FreeEntry(curr, contents);
        if data != NULL {
          SetExisting(curr, prev, Stored(data, freeFunc), at, freed);
        } else {
          DeleteExisting(curr, prev, freeFunc, at, freed);
        }
      } else if data != NULL {
        AddNew(key, Stored(data, freeFunc));
      } else {
        assert contents - {key} == contents;
      }
    }

    /** What is left of the map once buckets 0..i and the first `at` entries of bucket i
        have been freed. */
    ghost predicate Left(remaining: map<K, Stored>, i: nat, at: nat)
      requires Valid() && i < bucketSize && at <= |chains[i]|
      reads this, buckets, entries
    {
      && (forall k | k in remaining ::
            k in contents && remaining[k] == contents[k] && BucketOf(hash(k), bucketSize) >= i)
      && (forall k | k in contents && BucketOf(hash(k), bucketSize) > i :: k in remaining)
      && (forall x | 0 <= x < |chains[i]| :: KeysOf(chains[i])[x] in remaining <==> x >= at)
    }

    /** Frees one entry's data if it has a free function. */
    method FreeEntry(curr: Entry<K>, ghost remaining: map<K, Stored>) returns (freed: seq<(K, Stored)>)
      requires curr.key in remaining && remaining[curr.key] == Stored(curr.data, curr.freeFunc)
      ensures freed == FreedBySet(remaining, curr.key)
    {
      freed := if curr.freeFunc != NULL then [(curr.key, Stored(curr.data, curr.freeFunc))] else [];
    }

    lemma DropLeft(remaining: map<K, Stored>, i: nat, at: nat)
      requires Valid() && i < bucketSize && at < |chains[i]| && Left(remaining, i, at)
      ensures chains[i][at].key in remaining
      ensures remaining[chains[i][at].key] == Stored(chains[i][at].data, chains[i][at].freeFunc)
      ensures Left(remaining - {chains[i][at].key}, i, at + 1)
    {
      assert StandsFor(footprints[i], buckets[..][i], chains[i], i, bucketSize, hash, contents);
      assert KeysOf(chains[i])[at] == chains[i][at].key;
      assert ValuesOf(chains[i])[at] == Stored(chains[i][at].data, chains[i][at].freeFunc);
    }

    /** Freeing the next entry of a bucket keeps the account. */
    lemma FreeStep(all: map<K, Stored>, freed: seq<(K, Stored)>, remaining: map<K, Stored>, i: nat, at: nat)
      requires Valid() && i < bucketSize && at < |chains[i]| && Left(remaining, i, at)
      requires Live(all) == multiset(freed) + Live(remaining)
      ensures var curr := chains[i][at];
        && curr.key in remaining && remaining[curr.key] == Stored(curr.data, curr.freeFunc)
        && Left(remaining - {curr.key}, i, at + 1)
        && Live(all) == multiset(freed + FreedBySet(remaining, curr.key)) + Live(remaining - {curr.key})
    {
      DropLeft(remaining, i, at);
      DropConserves(remaining, chains[i][at].key);
    }

    lemma NextBucket(remaining: map<K, Stored>, i: nat)
      requires Valid() && i < bucketSize && Left(remaining, i, |chains[i]|)
      ensures forall k | k in remaining :: BucketOf(hash(k), bucketSize) >= i + 1
    {
      assert StandsFor(footprints[i], buckets[..][i], chains[i], i, bucketSize, hash, contents);
      var keys := KeysOf(chains[i]);
      forall k | k in remaining ensures BucketOf(hash(k), bucketSize) != i {
        assert k in contents;
        assert BucketOf(hash(k), bucketSize) == i ==> k in keys;
      }
    }

    lemma AllLeftAtStart(remaining: map<K, Stored>, i: nat)
      requires Valid() && i < bucketSize
      requires forall k | k in remaining ::
                 k in contents && remaining[k] == contents[k] && BucketOf(hash(k), bucketSize) >= i
      requires forall k | k in contents && BucketOf(hash(k), bucketSize) >= i :: k in remaining
      ensures Left(remaining, i, 0)
    {
      assert StandsFor(footprints[i], buckets[..][i], chains[i], i, bucketSize, hash, contents);
    }

    /** The inner loop of tpl_util_map_clear: one bucket. */
    method FreeChain(i: nat, ghost remaining: map<K, Stored>)
      returns (freed: seq<(K, Stored)>, ghost remaining': map<K, Stored>)
      requires Valid() && i < bucketSize && Left(remaining, i, 0)
      ensures Left(remaining', i, |chains[i]|)
      ensures Live(remaining) == multiset(freed) + Live(remaining')
    {
      assert StandsFor(footprints[i], buckets[..][i], chains[i], i, bucketSize, hash, contents);
      freed := [];
      remaining' := remaining;
      var curr := buckets[i];
      ghost var at := 0;
      while curr != null
        invariant at <= |chains[i]| && curr == if at == |chains[i]| then null else chains[i][at]
        invariant Left(remaining', i, at)
        invariant Live(remaining) == multiset(freed) + Live(remaining')
        decreases |chains[i]| - at
      {
        var next := curr.next;
        FreeStep(remaining, freed, remaining', i, at);
        var one := FreeEntry(curr, remaining');
        freed := freed + one;
        remaining' := remaining' - {curr.key};
        curr := next;
        at := at + 1;
      }
    }

    method FreeAll() returns (freed: seq<(K, Stored)>)
      requires Valid()
      ensures multiset(freed) == Live(contents)
    {
      freed := [];
      ghost var remaining := contents;
      var i := 0;
      while i < bucketSize
        invariant 0 <= i <= bucketSize
        invariant Live(contents) == multiset(freed) + Live(remaining)
        invariant forall k | k in remaining ::
                    k in contents && remaining[k] == contents[k] && BucketOf(hash(k), bucketSize) >= i
        invariant forall k | k in contents && BucketOf(hash(k), bucketSize) >= i :: k in remaining
      {
        AllLeftAtStart(remaining, i);
        var more;
        more, remaining := FreeChain(i, remaining);
        NextBucket(remaining, i);
        freed := freed + more;
        i := i + 1;
      }
      assert remaining == map[];
      assert Live(remaining) == multiset{};
    }

    method ZeroBuckets()
      modifies buckets
      ensures buckets[..] == seq(buckets.Length, _ => null)
    {
      forall i | 0 <= i < buckets.Length {
        buckets[i] := null;
      }
    }

    /** tpl_util_map_clear frees every value that has a free function exactly once and
        leaves the map empty, with nothing entrusted outstanding. */
    method Clear() returns (freed: seq<(K, Stored)>)
      requires Valid()
      modifies this, buckets
      ensures Valid() && contents == map[]
      ensures multiset(freed) == Live(old(contents)) && destroyed == old(destroyed) + multiset(freed)
      ensures entrusted == old(entrusted) == destroyed
    {
      freed := FreeAll();
      destroyed := destroyed + multiset(freed);
      contents, entries := map[], {};
      chains, footprints := seq(bucketSize, _ => []), seq(bucketSize, _ => {});
      ZeroBuckets();
      EmptyStands(bucketSize, hash);
    }
  }
}
