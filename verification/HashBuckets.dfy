/** The bucket lists of the striped hash set, and what rehashing does to them. */
module HashBuckets {
  import opened Counting
  import opened Moduli

  datatype Config<!V> = Config(hash: V -> nat, numStripes: nat, growthFactor: nat, maxDensity: real)

  const BUCKETS_PER_STRIPE := 5

  function GetStripe<V(!new)>(c: Config<V>, v: V): nat
    requires c.numStripes > 0
  {
    c.hash(v) % c.numStripes
  }

  function GetBucket<V(!new)>(c: Config<V>, numBuckets: nat, v: V): nat
    requires numBuckets > 0
  {
    c.hash(v) % numBuckets
  }

  /** Values that meet in a bucket are guarded by the same stripe. */
  lemma SameBucketSameStripe<V(!new)>(c: Config<V>, numBuckets: nat, v: V, w: V)
    requires c.numStripes > 0 && numBuckets > 0 && numBuckets % c.numStripes == 0
    requires GetBucket(c, numBuckets, v) == GetBucket(c, numBuckets, w)
    ensures GetStripe(c, v) == GetStripe(c, w)
  {
    ModuloOfMultiple(c.numStripes, numBuckets, c.hash(v));
    ModuloOfMultiple(c.numStripes, numBuckets, c.hash(w));
  }

  /** Every list holds only values of its bucket, each once. */
  ghost predicate Placed<V(!new)>(c: Config<V>, buckets: seq<seq<V>>) {
    && |buckets| > 0
    && (forall b, v :: 0 <= b < |buckets| && v in buckets[b] ==> c.hash(v) % |buckets| == b)
    && (forall b :: 0 <= b < |buckets| ==> Distinct(buckets[b]))
  }

  ghost function Contents<V(!new)>(buckets: seq<seq<V>>): set<V> {
    set b, v | 0 <= b < |buckets| && v in buckets[b] :: v
  }

  /** Looking into one bucket decides membership. */
  lemma BucketDecides<V(!new)>(c: Config<V>, buckets: seq<seq<V>>, v: V)
    requires Placed(c, buckets)
    ensures v in Contents(buckets) <==> v in buckets[GetBucket(c, |buckets|, v)]
  {
  }

  function PushFront<V(!new)>(c: Config<V>, buckets: seq<seq<V>>, v: V): (r: seq<seq<V>>)
    requires |buckets| > 0
    ensures |r| == |buckets|
  {
    var b := GetBucket(c, |buckets|, v);
    buckets[b := [v] + buckets[b]]
  }

  lemma PushKeeps<V(!new)>(c: Config<V>, buckets: seq<seq<V>>, v: V)
    requires Placed(c, buckets) && v !in Contents(buckets)
    ensures Placed(c, PushFront(c, buckets, v))
    ensures Contents(PushFront(c, buckets, v)) == Contents(buckets) + {v}
  {
    var r, k := PushFront(c, buckets, v), GetBucket(c, |buckets|, v);
    BucketDecides(c, buckets, v);
    assert v in r[k];
    forall w | w in Contents(buckets)
      ensures w in Contents(r)
    {
      var b :| 0 <= b < |buckets| && w in buckets[b];
      assert w in r[b];
    }
  }

  /** forward_list::remove takes out every occurrence. */
  function Without<V(==,!new)>(s: seq<V>, v: V): seq<V>
  {
    if s == [] then [] else if s[0] == v then Without(s[1..], v) else [s[0]] + Without(s[1..], v)
  }

  lemma {:induction false} WithoutMembers<V(!new)>(s: seq<V>, v: V)
    ensures forall w :: w in Without(s, v) <==> w in s && w != v
  {
    if s != [] {
      WithoutMembers(s[1..], v);
      assert s == [s[0]] + s[1..];
    }
  }

  lemma {:induction false} WithoutDistinct<V(!new)>(s: seq<V>, v: V)
    requires Distinct(s)
    ensures Distinct(Without(s, v))
  {
    if s != [] {
      assert Distinct(s[1..]);
      WithoutDistinct(s[1..], v);
      WithoutMembers(s[1..], v);
      assert s[0] !in s[1..];
    }
  }

  function Erase<V(==,!new)>(c: Config<V>, buckets: seq<seq<V>>, v: V): (r: seq<seq<V>>)
    requires |buckets| > 0
    ensures |r| == |buckets|
  {
    var b := GetBucket(c, |buckets|, v);
    buckets[b := Without(buckets[b], v)]
  }

  lemma EraseKeeps<V(!new)>(c: Config<V>, buckets: seq<seq<V>>, v: V)
    requires Placed(c, buckets)
    ensures Placed(c, Erase(c, buckets, v))
    ensures Contents(Erase(c, buckets, v)) == Contents(buckets) - {v}
  {
    var r, k := Erase(c, buckets, v), GetBucket(c, |buckets|, v);
    WithoutDistinct(buckets[k], v);
    WithoutMembers(buckets[k], v);
    forall b, w | 0 <= b < |r| && w in r[b]
      ensures w in buckets[b]
      ensures w != v
    {
      if b == k {
        assert w in Without(buckets[k], v);
      } else {
        assert GetBucket(c, |buckets|, w) == b;
      }
    }
    forall w | w in Contents(buckets) && w != v
      ensures w in Contents(r)
    {
      var b :| 0 <= b < |buckets| && w in buckets[b];
      assert w in r[b];
    }
  }

  // ---- rehash

  /** The values of the first i lists, in the order in which rehash visits them. */
  ghost function Visited<V(!new)>(buckets: seq<seq<V>>, i: nat): seq<V>
    requires i <= |buckets|
  {
    if i == 0 then [] else Visited(buckets, i - 1) + buckets[i - 1]
  }

  /** The values are pushed to the front of their buckets one after the other. */
  ghost function Refill<V(!new)>(c: Config<V>, buckets: seq<seq<V>>, values: seq<V>): (r: seq<seq<V>>)
    requires |buckets| > 0
    ensures |r| == |buckets|
    decreases |values|
  {
    if values == [] then buckets
    else PushFront(c, Refill(c, buckets, values[..|values| - 1]), values[|values| - 1])
  }

  function EmptyBuckets<V(!new)>(n: nat): (r: seq<seq<V>>)
    ensures |r| == n && forall b :: 0 <= b < n ==> r[b] == []
  {
    seq(n, _ => [])
  }

  ghost function Rehashed<V(!new)>(c: Config<V>, buckets: seq<seq<V>>): (r: seq<seq<V>>)
    requires |buckets| * c.growthFactor > 0
    ensures |r| == |buckets| * c.growthFactor
  {
    Refill(c, EmptyBuckets(|buckets| * c.growthFactor), Visited(buckets, |buckets|))
  }

  lemma {:induction false} RefillKeeps<V(!new)>(c: Config<V>, buckets: seq<seq<V>>, values: seq<V>)
    requires Placed(c, buckets) && Distinct(values)
    requires forall v :: v in values ==> v !in Contents(buckets)
    ensures Placed(c, Refill(c, buckets, values))
    ensures forall v :: v in Contents(Refill(c, buckets, values)) <==> v in Contents(buckets) || v in values
    decreases |values|
  {
    if values != [] {
      var rest, last := values[..|values| - 1], values[|values| - 1];
      assert values == rest + [last];
      RefillKeeps(c, buckets, rest);
      PushKeeps(c, Refill(c, buckets, rest), last);
    }
  }

  lemma DistinctConcat<V(!new)>(a: seq<V>, b: seq<V>)
    requires Distinct(a) && Distinct(b)
    requires forall v :: v in a ==> v !in b
    ensures Distinct(a + b)
  {
    forall i, j | 0 <= i < j < |a + b|
      ensures (a + b)[i] != (a + b)[j]
    {
      assert i < |a| <= j ==> a[i] in a && b[j - |a|] in b;
    }
  }

  lemma {:induction false} VisitedOnce<V(!new)>(c: Config<V>, buckets: seq<seq<V>>, i: nat)
    requires Placed(c, buckets) && i <= |buckets|
    ensures Distinct(Visited(buckets, i))
    ensures forall v :: v in Visited(buckets, i) <==> v in Contents(buckets) && GetBucket(c, |buckets|, v) < i
  {
    if i > 0 {
      VisitedOnce(c, buckets, i - 1);
      assert Distinct(buckets[i - 1]);
      var a, b := Visited(buckets, i - 1), buckets[i - 1];
      forall v
        ensures v in a + b <==> v in Contents(buckets) && GetBucket(c, |buckets|, v) < i
      {
        BucketDecides(c, buckets, v);
      }
      DistinctConcat(a, b);
    }
  }

  lemma EmptyPlaced<V(!new)>(c: Config<V>, buckets: seq<seq<V>>)
    requires |buckets| > 0 && forall b :: 0 <= b < |buckets| ==> buckets[b] == []
    ensures Placed(c, buckets) && Contents(buckets) == {}
  {
  }

  lemma BucketsThere<V(!new)>(c: Config<V>, buckets: seq<seq<V>>)
    requires Placed(c, buckets)
    ensures |buckets| > 0
  {
  }

  lemma BucketsNamed<V(!new)>(c: Config<V>, buckets: seq<seq<V>>)
    requires |buckets| > 0
    ensures forall v :: GetBucket(c, |buckets|, v) < |buckets|
  {
  }

  /** Rehashing loses nothing, adds nothing and puts every value into its new bucket, once. */
  lemma RehashKeeps<V(!new)>(c: Config<V>, buckets: seq<seq<V>>)
    requires Placed(c, buckets) && c.growthFactor > 0 && c.numStripes > 0 && |buckets| % c.numStripes == 0
    ensures |buckets| * c.growthFactor > 0
    ensures Placed(c, Rehashed(c, buckets))
    ensures Contents(Rehashed(c, buckets)) == Contents(buckets)
    ensures |Rehashed(c, buckets)| % c.numStripes == 0
  {
    hide Placed, Contents, GetBucket, Refill, Visited, Distinct;
    var n := |buckets| * c.growthFactor;
    assert n > 0 by { BucketsThere(c, buckets); MultipleGrows(|buckets|, c.growthFactor); }
    MultipleOfMultiple(c.numStripes, |buckets|, c.growthFactor);
    VisitedOnce(c, buckets, |buckets|);
    BucketsNamed(c, buckets);
    var empty: seq<seq<V>> := EmptyBuckets(n);
    EmptyPlaced(c, empty);
    RefillKeeps(c, empty, Visited(buckets, |buckets|));
  }
}
