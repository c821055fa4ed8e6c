/** The in-memory limiter: a map of slices, each filtered in place over its own
    backing array. */
module MemoryLimiter {
  import opened SlidingWindow

  type Key = string

  /** The first `len` elements of a backing array. */
  datatype Slice = Slice(data: array<Time>, len: nat)

  class Limiter {
    var hits: map<Key, Slice>

    /** Every slice fits its array and no two keys share one. */
    ghost predicate Valid()
      reads this
    {
      && (forall k :: k in hits ==> hits[k].len <= hits[k].data.Length)
      && (forall j, k :: j in hits && k in hits && j != k ==> hits[j].data != hits[k].data)
    }

    ghost function Arrays(): set<object>
      reads this
    {
      set k | k in hits :: hits[k].data
    }

    ghost function Hits(k: Key): seq<Time>
      requires Valid()
      reads this, Arrays()
    {
      if k in hits then hits[k].data[..hits[k].len] else []
    }

    constructor ()
      ensures Valid() && hits == map[]
    {
      hits := map[];
    }

    /** `append` on a slice: in place while the array has room, else into a
        larger copy. */
    method Append(data: array<Time>, len: nat, now: Time) returns (longer: Slice)
      requires len <= data.Length
      modifies data
      ensures longer.len == len + 1 <= longer.data.Length
      ensures longer.data == data || fresh(longer.data)
      ensures longer.data[..len + 1] == old(data[..len]) + [now]
    {
      if len < data.Length {
        data[len] := now;
        return Slice(data, len + 1);
      }
      var larger := new Time[2 * len + 1];
      forall i | 0 <= i < len {
        larger[i] := data[i];
      }
      larger[len] := now;
      assert larger[..len] == data[..len];
      return Slice(larger, len + 1);
    }

    /** The filtering loop: reads the slice and overwrites the front of the same array. */
    method KeepLive(data: array<Time>, n: nat, cutoff: Time) returns (kept: nat)
      requires n <= data.Length
      modifies data
      ensures kept <= n && data[..kept] == Live(old(data[..n]), cutoff)
    {
      ghost var before := data[..n];
      kept := 0;
      for i := 0 to n
        invariant kept <= i
        invariant data[..kept] == Live(before[..i], cutoff)
        invariant forall k :: i <= k < n ==> data[k] == before[k]
      {
        var hit := data[i];
        assert hit == before[i];
        assert before[..i + 1][..i] == before[..i];
        if hit > cutoff {
          data[kept] := hit;
          kept := kept + 1;
        }
      }
      assert before[..n] == before;
    }

    /** The key's slice; a missing key reads as the empty slice. */
    method Lookup(key: Key) returns (slice: Slice)
      requires Valid()
      ensures slice.len <= slice.data.Length && slice.data[..slice.len] == Hits(key)
      ensures fresh(slice.data) || slice.data in Arrays()
      ensures Unshared(key, slice)
    {
      if key in hits {
        return hits[key];
      }
      var empty := new Time[0];
      return Slice(empty, 0);
    }

    /** No other key's slice lives in this array. */
    ghost predicate Unshared(key: Key, slice: Slice)
      reads this
    {
      forall k :: k in hits && k != key ==> hits[k].data != slice.data
    }

    method Store(key: Key, slice: Slice)
      requires Valid() && slice.len <= slice.data.Length && Unshared(key, slice)
      modifies this
      ensures Valid() && hits.Keys == old(hits).Keys + {key}
      ensures Hits(key) == slice.data[..slice.len]
      ensures forall k :: k in hits && k != key ==> Hits(k) == old(Hits(k))
    {
      hits := hits[key := slice];
    }

    /** The answer for the hits kept at the front of the array. */
    method Answer(data: array<Time>, kept: nat, now: Time, limit: Limit, window: Time)
      returns (allowed: bool, retryAfter: Time, slice: Slice)
      requires kept <= data.Length
      modifies data
      ensures slice.len <= slice.data.Length && (slice.data == data || fresh(slice.data))
      ensures Verdict(allowed, retryAfter, slice.data[..slice.len]) == DecideOn(old(data[..kept]), now, limit, window)
    {
      if kept >= limit {
        allowed, retryAfter, slice := false, data[0] + window - now, Slice(data, kept);
        if retryAfter < 0 {
          retryAfter := 0;
        }
      } else {
        allowed, retryAfter := true, 0;
        slice := Append(data, kept, now);
      }
    }

    /** Filters the slice and answers for what it keeps. */
    method Judge(data: array<Time>, n: nat, now: Time, limit: Limit, window: Time)
      returns (allowed: bool, retryAfter: Time, slice: Slice)
      requires n <= data.Length
      modifies data
      ensures slice.len <= slice.data.Length && (slice.data == data || fresh(slice.data))
      ensures Verdict(allowed, retryAfter, slice.data[..slice.len]) == Decide(old(data[..n]), now, limit, window)
    {
      var cutoff := now - window;
      var kept := KeepLive(data, n, cutoff);
      allowed, retryAfter, slice := Answer(data, kept, now, limit, window);
    }

    method Allow(key: Key, now: Time, limit: Limit, window: Time) returns (allowed: bool, retryAfter: Time)
      requires Valid()
      modifies this, Arrays()
      ensures Valid()
      ensures Verdict(allowed, retryAfter, Hits(key)) == Decide(old(Hits(key)), now, limit, window)
      ensures hits.Keys == old(hits).Keys + {key}
      ensures forall k :: k in hits && k != key ==> Hits(k) == old(Hits(k))
    {
      var slice := Lookup(key);
      allowed, retryAfter, slice := Judge(slice.data, slice.len, now, limit, window);
      Store(key, slice);
    }

    method Remaining(key: Key, now: Time, limit: Limit, window: Time) returns (left: nat)
      requires Valid()
      ensures left == SlidingWindow.Remaining(Hits(key), now, limit, window)
    {
      var cutoff, count := now - window, 0;
      if key in hits {
        var slice := hits[key];
        for i := 0 to slice.len
          invariant count == |Live(slice.data[..i], cutoff)|
        {
          assert slice.data[..i + 1][..i] == slice.data[..i];
          if slice.data[i] > cutoff {
            count := count + 1;
          }
        }
      }
      if limit < count {
        return 0;
      }
      return limit - count;
    }
  }
}
