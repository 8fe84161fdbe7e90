/** The striped hash set as an object, with its operations as one thread executes them undisturbed. */
module StripedHashSets {
  import opened HashBuckets
  import opened Moduli

  class StripedHashSet<V(==,!new)> {
    const config: Config<V>
    var buckets: seq<seq<V>>
    var storageSize: nat

    ghost predicate Valid()
      reads this
    {
      && config.numStripes > 0 && config.growthFactor > 0
      && Placed(config, buckets)
      && |buckets| % config.numStripes == 0
      && storageSize == |Elements()|
    }

    ghost function Elements(): set<V>
      reads this
    {
      Contents(buckets)
    }

    constructor (config: Config<V>)
      requires config.numStripes > 0 && config.growthFactor > 0
      ensures Valid() && Elements() == {} && this.config == config
      ensures |buckets| == 5 * config.numStripes
    {
      this.config := config;
      buckets := EmptyBuckets(BUCKETS_PER_STRIPE * config.numStripes);
      storageSize := 0;
      new;
      EmptyPlaced(config, buckets);
      Regroup(config.numStripes, BUCKETS_PER_STRIPE, 1, 0);
      ModuloOf(config.numStripes, BUCKETS_PER_STRIPE, 0);
    }

    /** Walks through the list of one bucket. */
    method ContainsNoLock(v: V) returns (found: bool)
      requires Valid()
      ensures found <==> v in Elements()
    {
      BucketDecides(config, buckets, v);
      var list, i := buckets[GetBucket(config, |buckets|, v)], 0;
      while i < |list|
        invariant i <= |list|
        invariant v !in list[..i]
      {
        if list[i] == v {
          return true;
        }
        i := i + 1;
      }
      return false;
    }

    method Add(v: V)
      requires Valid()
      modifies this`buckets, this`storageSize
      ensures Valid() && Elements() == old(Elements()) + {v}
      ensures |buckets| == if v in old(Elements()) || storageSize as real / old(|buckets|) as real <= config.maxDensity
                           then old(|buckets|) else old(|buckets|) * config.growthFactor
    {
      hide Placed, Contents, Rehashed, PushFront;
      var present := ContainsNoLock(v);
      assert v in Elements() ==> Elements() + {v} == Elements();
      if present {
        return;
      }
      PushKeeps(config, buckets, v);
      buckets := PushFront(config, buckets, v);
      storageSize := storageSize + 1;
      assert |buckets| > 0 by { BucketsThere(config, buckets); }
      if storageSize as real / |buckets| as real > config.maxDensity {
        Resize(|buckets|);
      }
    }

    method Remove(v: V)
      requires Valid()
      modifies this`buckets, this`storageSize
      ensures Valid() && Elements() == old(Elements()) - {v} && |buckets| == old(|buckets|)
    {
      hide Placed, Contents, Erase;
      var present := ContainsNoLock(v);
      assert v !in Elements() ==> Elements() - {v} == Elements();
      if !present {
        return;
      }
      assert |buckets| > 0 by { BucketsThere(config, buckets); }
      EraseKeeps(config, buckets, v);
      buckets := Erase(config, buckets, v);
      storageSize := storageSize - 1;
    }

    method Resize(oldNumBuckets: nat)
      requires Valid()
      modifies this`buckets
      ensures Valid() && Elements() == old(Elements())
      ensures |buckets| ==
                if oldNumBuckets == old(|buckets|) then old(|buckets|) * config.growthFactor else old(|buckets|)
    {
      if oldNumBuckets != |buckets| {
        return;
      }
      Rehash();
    }

    /** Moves every value from the old lists to the front of its new list. */
    method Rehash()
      requires Valid()
      modifies this`buckets
      ensures Valid() && Elements() == old(Elements())
      ensures |buckets| == old(|buckets|) * config.growthFactor
      ensures old(|buckets|) * config.growthFactor > 0 && buckets == Rehashed(config, old(buckets))
    {
      hide Placed, Contents, PushFront;
      RehashKeeps(config, buckets);
      var oldBuckets, newBuckets := buckets, EmptyBuckets<V>(|buckets| * config.growthFactor);
      ghost var empty := newBuckets;
      var i := 0;
      while i < |oldBuckets|
        invariant i <= |oldBuckets|
        invariant |newBuckets| == |empty|
        invariant newBuckets == Refill(config, empty, Visited(oldBuckets, i))
      {
        var list, j := oldBuckets[i], 0;
        ghost var before := Visited(oldBuckets, i);
        assert before + list[..0] == before;
        while j < |list|
          invariant j <= |list|
          invariant |newBuckets| == |empty|
          invariant newBuckets == Refill(config, empty, before + list[..j])
        {
          newBuckets := PushFront(config, newBuckets, list[j]);
          j := j + 1;
          assert (before + list[..j])[..|before + list[..j]| - 1] == before + list[..j - 1];
        }
        assert before + list[..j] == Visited(oldBuckets, i + 1);
        i := i + 1;
      }
      buckets := newBuckets;
    }
  }
}
