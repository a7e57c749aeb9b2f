/**
 * `ConnectionCountsCache` (core/counts_cache.hpp): connection counts from
 * a set of centres, in a map from vertex to entry that `cleanup` brings
 * back under a maximum size by evicting least-accessed entries.
 */
module CountsCache {
  import opened Common
  import opened ClusterVertices

  /** `std::numeric_limits<size_t>::max()`, the starting minimum of `cleanup`. */
  const SizeMax: nat := 0xFFFF_FFFF_FFFF_FFFF

  /** `ConnectionCountsCacheElement` */
  datatype Element = Element(timesAccessed: nat, numSamples: nat, counts: seq<nat>)

  /** A fresh element for n vertices: never accessed, no samples, n zero counts. */
  function NewElement(n: nat): (e: Element)
    ensures e.timesAccessed == 0 && e.numSamples == 0
    ensures |e.counts| == n && forall i :: 0 <= i < n ==> e.counts[i] == 0
  {
    Element(0, 0, seq(n, i => 0))
  }

  /** The entries `uncovered_node` resets when it stops at `bound`: cached, below bound, covered and not a centre. */
  function ResetBelow(cache: map<nat, Element>, covered: seq<bool>, centers: seq<bool>, bound: nat): (r: map<nat, Element>)
    requires bound <= |covered| == |centers|
    ensures r.Keys == cache.Keys
    ensures forall k :: k in r && !(k < bound && covered[k] && !centers[k]) ==> r[k] == cache[k]
    ensures forall k :: k in r && k < bound && covered[k] && !centers[k] ==> r[k] == cache[k].(timesAccessed := 0)
  {
    map k | k in cache :: if k < bound && covered[k] && !centers[k] then cache[k].(timesAccessed := 0) else cache[k]
  }

  /** Moving the bound past k resets entry k, if it qualifies, and nothing else. */
  lemma ResetBelowStep(cache: map<nat, Element>, covered: seq<bool>, centers: seq<bool>, k: nat)
    requires k < |covered| == |centers|
    ensures ResetBelow(cache, covered, centers, k + 1) ==
              if k in cache && covered[k] && !centers[k]
              then ResetBelow(cache, covered, centers, k)[k := cache[k].(timesAccessed := 0)]
              else ResetBelow(cache, covered, centers, k)
  {
  }

  /** No cached vertex below k + 1 is uncovered, once none below k is and k is not. */
  lemma NoneUncoveredStep(cache: map<nat, Element>, covered: seq<bool>, k: nat)
    requires k < |covered|
    requires forall j :: 0 <= j < k ==> !(j in cache && !covered[j])
    requires !(k in cache && !covered[k])
    ensures forall j :: 0 <= j < k + 1 ==> !(j in cache && !covered[j])
  {
  }

  class ConnectionCountsCache {
    const maxSize: nat
    var cache: map<nat, Element>

    constructor (maxSize: nat)
      ensures this.maxSize == maxSize && cache == map[]
    {
      this.maxSize := maxSize;
      cache := map[];
    }

    /** `contains(v)` */
    predicate Contains(v: nat)
      reads this
    {
      v in cache
    }

    /** `size()` */
    function Size(): (n: nat)
      reads this
      ensures n == |cache.Keys|
    {
      |cache|
    }

    /** `get(v)`: throws unless v is cached; counts one more access. */
    method Get(v: nat) returns (r: Result<Element, LogicError>)
      modifies this
      ensures v !in old(cache) ==> r == Err(LogicError("Cache does not contain the requested element")) && cache == old(cache)
      ensures v in old(cache) ==>
                cache == old(cache)[v := old(cache)[v].(timesAccessed := old(cache)[v].timesAccessed + 1)]
                && r == Ok(cache[v])
    {
      if !Contains(v) {
        return Err(LogicError("Cache does not contain the requested element"));
      }
      cache := cache[v := cache[v].(timesAccessed := cache[v].timesAccessed + 1)];
      r := Ok(cache[v]);
    }

    /** `add_new(v, n)`: throws if v is cached; otherwise stores a fresh element for n vertices. */
    method AddNew(v: nat, n: nat) returns (r: Result<(), LogicError>)
      modifies this
      ensures v in old(cache) ==> r == Err(LogicError("Cache already contains the requested element")) && cache == old(cache)
      ensures v !in old(cache) ==> r.Ok? && cache == old(cache)[v := NewElement(n)]
    {
      if Contains(v) {
        return Err(LogicError("Cache already contains the requested element"));
      }
      cache := cache[v := NewElement(n)];
      r := Ok(());
    }

    /** `get_or_new(v, n)`: never fails; a new entry has been accessed once. */
    method GetOrNew(v: nat, n: nat) returns (e: Element)
      modifies this
      ensures v in cache && e == cache[v]
      ensures v in old(cache) ==> cache == old(cache)[v := old(cache)[v].(timesAccessed := old(cache)[v].timesAccessed + 1)]
      ensures v !in old(cache) ==> cache == old(cache)[v := NewElement(n).(timesAccessed := 1)]
    {
      var r: Result<Element, LogicError>;
      if Contains(v) {
        r := Get(v);
      } else {
        var added := AddNew(v, n);
        r := Get(v);
      }
      e := r.value;
    }

    /**
     * `uncovered_node(vinfo)`: the smallest cached index whose vertex is
     * uncovered, or -1; on the way, cached covered vertices that are not
     * centres get their access count reset to 0.
     */
    method UncoveredNode(vinfo: seq<ClusterVertex>) returns (i: int)
      modifies this
      ensures -1 <= i < |vinfo|
      ensures i >= 0 ==> i in old(cache) && !vinfo[i].IsCovered()
      ensures var bound := if i >= 0 then i else |vinfo|;
              forall j :: 0 <= j < bound ==> !(j in old(cache) && !vinfo[j].IsCovered())
      ensures var bound := if i >= 0 then i else |vinfo|;
              cache == ResetBelow(old(cache), Covered(vinfo), Centers(vinfo), bound)
    {
      ghost var cache0 := cache;
      ghost var covered := Covered(vinfo);
      ghost var centers := Centers(vinfo);
      var n := |vinfo|;
      for k := 0 to n
        invariant forall j :: 0 <= j < k ==> !(j in cache0 && !covered[j])
        invariant cache == ResetBelow(cache0, covered, centers, k)
      {
        ResetBelowStep(cache0, covered, centers, k);
        assert k in cache <==> k in cache0;
        assert covered[k] == vinfo[k].IsCovered();
        if k in cache {
          if !vinfo[k].IsCovered() {
            return k;
          } else if vinfo[k].IsCovered() && !vinfo[k].isCenter {
            cache := cache[k := cache[k].(timesAccessed := 0)];
          }
        }
        NoneUncoveredStep(cache0, covered, k);
      }
      i := -1;
    }

    /**
     * The first key, in the order keys, with the smallest access count
     * among them, found as `cleanup` scans with a strict `<` from SizeMax.
     */
    method LeastAccessed(keys: seq<nat>) returns (minV: nat)
      requires Elems(keys) == cache.Keys && |keys| > 0
      requires forall k :: k in cache ==> cache[k].timesAccessed < SizeMax
      ensures minV in cache
      ensures forall k :: k in cache ==> cache[minV].timesAccessed <= cache[k].timesAccessed
    {
      var minAccessed := SizeMax;
      minV := keys[0];
      for i := 0 to |keys|
        invariant i == 0 ==> minAccessed == SizeMax
        invariant i > 0 ==> minV in cache && minAccessed == cache[minV].timesAccessed
        invariant forall j :: 0 <= j < i ==> keys[j] in cache && minAccessed <= cache[keys[j]].timesAccessed
      {
        assert keys[i] in Elems(keys);
        if cache[keys[i]].timesAccessed < minAccessed {
          minAccessed := cache[keys[i]].timesAccessed;
          minV := keys[i];
        }
      }
      forall k | k in cache
        ensures cache[minV].timesAccessed <= cache[k].timesAccessed
      {
        var j :| 0 <= j < |keys| && keys[j] == k;
      }
    }

    /**
     * `cleanup()`: while the cache is over its maximum size, evict an
     * entry with the fewest accesses (ties broken by the map's iteration
     * order).  The access counts stay below SizeMax, as they must for the
     * scan to find an entry.
     */
    method Cleanup()
      requires forall k :: k in cache ==> cache[k].timesAccessed < SizeMax
      modifies this
      ensures |cache| == if |old(cache)| <= maxSize then |old(cache)| else maxSize
      ensures cache.Keys <= old(cache).Keys
      ensures forall k :: k in cache ==> cache[k] == old(cache)[k]
      ensures forall r, s :: r in old(cache) && r !in cache && s in cache ==>
                old(cache)[r].timesAccessed <= old(cache)[s].timesAccessed
    {
      ghost var cache0 := cache;
      while |cache| > maxSize
        invariant cache.Keys <= cache0.Keys
        invariant forall k :: k in cache ==> cache[k] == cache0[k]
        invariant |cache| == |cache0| || |cache| >= maxSize
        invariant |cache| <= |cache0|
        invariant forall r, s :: r in cache0 && r !in cache && s in cache ==>
                    cache0[r].timesAccessed <= cache0[s].timesAccessed
        decreases |cache|
      {
        var keys := Enumerate(cache.Keys);
        var minV := LeastAccessed(keys);
        ghost var before := cache;
        cache := cache - {minV};
        assert cache.Keys == before.Keys - {minV};
      }
    }
  }

  /** Whether each vertex is covered, and whether it is a centre. */
  function Covered(vinfo: seq<ClusterVertex>): (r: seq<bool>)
    reads vinfo
    ensures |r| == |vinfo| && forall i :: 0 <= i < |vinfo| ==> r[i] == vinfo[i].IsCovered()
  {
    seq(|vinfo|, i reads vinfo requires 0 <= i < |vinfo| => vinfo[i].IsCovered())
  }

  function Centers(vinfo: seq<ClusterVertex>): (r: seq<bool>)
    reads vinfo
    ensures |r| == |vinfo| && forall i :: 0 <= i < |vinfo| ==> r[i] == vinfo[i].isCenter
  {
    seq(|vinfo|, i reads vinfo requires 0 <= i < |vinfo| => vinfo[i].isCenter)
  }
}
