/** `ox_map`: parallel key and value arrays kept sorted by key, searched by
    bisection. */
module SortedMap {
  import opened AssocSpec

  /** An array that holds `x` between the two parts of `s` holds `s` with `x`
      inserted. */
  lemma Joined(a: array<int>, s: seq<int>, i: int, x: int, n: int)
    requires 0 <= i <= n == |s| && n < a.Length
    requires a[..i] == s[..i] && a[i] == x && a[i + 1..n + 1] == s[i..]
    ensures a[..n + 1] == InsertAt(s, i, x)
  {
    assert a[..n + 1] == a[..i] + [a[i]] + a[i + 1..n + 1];
  }

  /** An array that holds the two parts of `s` round position `i` holds `s`
      without that entry. */
  lemma Closed(a: array<int>, s: seq<int>, i: int, n: int)
    requires 0 <= i < n == |s| && n <= a.Length
    requires a[..i] == s[..i] && a[i..n - 1] == s[i + 1..]
    ensures a[..n - 1] == RemoveAt(s, i)
  {
    assert a[..n - 1] == a[..i] + a[i..n - 1];
  }

  class OxMap {
    var len: int
    var cap: int
    var keys: array<int>
    var vals: array<int>

    ghost predicate Valid()
      reads this, keys
    {
      && 0 <= len <= cap && keys.Length == cap && vals.Length == cap && keys != vals
      && Sorted(keys[..len])
    }

    ghost function Contents(): (e: Entries)
      reads this, keys, vals
      requires Valid()
      ensures Proper(e) && Sorted(e.keys)
    {
      Entries(keys[..len], vals[..len])
    }

    ghost function Arrays(): set<array<int>>
      reads this
    {
      {keys, vals}
    }

    constructor ()
      ensures Valid() && Contents() == Entries([], []) && fresh(Arrays())
    {
      len, cap := 0, 0;
      keys, vals := new int[0], new int[0];
    }

    /** `ox_map_lb`: the first position whose key is not below `q`. */
    method FindLowerBound(q: int) returns (lo: int)
      requires Valid()
      ensures lo == LowerBound(keys[..len], q) && IsLowerBound(keys[..len], q, lo)
    {
      lo := 0;
      var hi := len;
      ghost var ks := keys[..len];
      while lo < hi
        invariant 0 <= lo <= hi <= len
        invariant forall j :: 0 <= j < lo ==> ks[j] < q
        invariant forall j :: hi <= j < len ==> q <= ks[j]
      {
        var mid := lo + (hi - lo) / 2;
        assert keys[mid] == ks[mid];
        if keys[mid] < q { lo := mid + 1; } else { hi := mid; }
      }
      LowerBoundIs(ks, q, lo);
    }

    /** `ox_map_grow` */
    method Grow()
      requires Valid()
      modifies this`cap, this`keys, this`vals
      ensures Valid() && Contents() == old(Contents()) && len < cap
      ensures fresh(Arrays() - old(Arrays()))
    {
      if len < cap { return; }
      ghost var e := Contents();
      var nc := if cap != 0 then cap * 2 else 8;
      var ks, vs := new int[nc], new int[nc];
      forall j | 0 <= j < cap { ks[j] := keys[j]; }
      forall j | 0 <= j < cap { vs[j] := vals[j]; }
      assert ks[..len] == keys[..len] && vs[..len] == vals[..len];
      keys, vals, cap := ks, vs, nc;
      assert keys[..len] == e.keys && vals[..len] == e.vals;
    }

    /** `ox_map_set` */
    method Set(k: int, v: int)
      requires Valid()
      modifies this, Arrays()
      ensures Valid() && fresh(Arrays() - old(Arrays()))
      ensures Contents() == SortedSet(old(Contents()), k, v)
    {
      ghost var e := Contents();
      var i := FindLowerBound(k);
      assert SortedSet(e, k, v) == if i < |e.keys| && e.keys[i] == k then Entries(e.keys, e.vals[i := v])
        else Entries(InsertAt(e.keys, i, k), InsertAt(e.vals, i, v));
      if i < len && keys[i] == k {
        ghost var ks, vs := keys[..len], vals[..len];
        vals[i] := v;
        assert keys[..len] == ks && vals[..len] == vs[i := v];
        return;
      }
      LowerBoundFinds(keys[..len], k);
      Grow();
      Insert(i, k, v);
    }

    /** The entries from `i` on move up by one, all at once. */
    method Insert(i: int, k: int, v: int)
      requires Valid() && len < cap && k !in keys[..len] && IsLowerBound(keys[..len], k, i)
      modifies this`len, keys, vals
      ensures Valid()
      ensures Contents() == Entries(InsertAt(old(Contents()).keys, i, k), InsertAt(old(Contents()).vals, i, v))
    {
      ghost var ks, vs := keys[..len], vals[..len];
      InsertAtKeys(ks, i, k);
      MoveUp(keys, i, len);
      MoveUp(vals, i, len);
      keys[i] := k;
      vals[i] := v;
      Joined(keys, ks, i, k, len);
      Joined(vals, vs, i, v, len);
      len := len + 1;
    }

    /** `memmove` of the entries from `i` on to the next place. */
    method MoveUp(a: array<int>, i: int, n: int)
      requires 0 <= i <= n < a.Length
      modifies a
      ensures a[..i] == old(a[..i]) && a[i + 1..n + 1] == old(a[i..n])
    {
      forall j | i <= j < n { a[j + 1] := a[j]; }
    }

    /** `ox_map_get`: a missing key reads as zero. */
    method Get(k: int) returns (found: bool, v: int)
      requires Valid()
      ensures SortedApply(Contents(), Op.Get(k)) == (Contents(), Got(found, v))
    {
      var i := FindLowerBound(k);
      if i < len && keys[i] == k { return true, vals[i]; }
      return false, 0;
    }

    /** `ox_map_contains` */
    method Contains(k: int) returns (present: bool)
      requires Valid()
      ensures SortedApply(Contents(), Op.Contains(k)) == (Contents(), Is(present))
    {
      var i := FindLowerBound(k);
      present := i < len && keys[i] == k;
    }

    /** `ox_map_delete`: the entries after the deleted one move down by one. */
    method Delete(k: int)
      requires Valid()
      modifies this`len, keys, vals
      ensures Valid() && Contents() == SortedDelete(old(Contents()), k)
    {
      ghost var ks, vs := keys[..len], vals[..len];
      var i := FindLowerBound(k);
      if i < len && keys[i] == k {
        RemoveAtKeys(ks, i);
        MoveDown(keys, i, len);
        MoveDown(vals, i, len);
        Closed(keys, ks, i, len);
        Closed(vals, vs, i, len);
        len := len - 1;
      }
    }

    /** `memmove` of the entries after `i` to the place before. */
    method MoveDown(a: array<int>, i: int, n: int)
      requires 0 <= i < n <= a.Length
      modifies a
      ensures a[..i] == old(a[..i]) && a[i..n - 1] == old(a[i + 1..n])
    {
      forall j | i <= j < n - 1 { a[j] := a[j + 1]; }
    }

    /** `ox_map_clear` */
    method Clear()
      requires Valid()
      modifies this`len
      ensures Valid() && Contents() == Entries([], [])
    {
      len := 0;
    }
  }
}
