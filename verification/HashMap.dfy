/** `ox_hmap`: an open-addressing table of 1-based indices into key and value
    arrays kept in insertion order. */
module HashMap {
  import opened AssocSpec
  import opened Bits
  import opened Sequences
  import Values

  // ----- probe paths -----

  ghost predicate PowerOfTwo(nb: int) {
    exists k: nat :: nb == Pow2(k)
  }

  /** The bucket a key's probe path starts at. */
  function Home(hh: int -> nat, nb: int, k: int): nat
    requires nb > 0
  {
    BitAnd(hh(k), nb - 1)
  }

  /** The bucket `i` places after `h`, wrapping round. */
  function Wrap(nb: int, h: int, i: int): int {
    if h + i < nb then h + i else h + i - nb
  }

  /** How far bucket `j` is along the path from `h`. */
  function Dist(nb: int, h: int, j: int): int {
    if h <= j then j - h else j - h + nb
  }

  lemma MaskWraps(nb: int, h: nat, i: nat)
    requires PowerOfTwo(nb) && h < nb && i < nb
    ensures BitAnd(h + i, nb - 1) == Wrap(nb, h, i)
  {
    var k: nat :| nb == Pow2(k);
    AndLowMask(h + i, k);
    LowBitsIsMod(h + i, k);
    Values.QuotientIs(h + i, nb, if h + i < nb then 0 else 1, Wrap(nb, h, i));
  }

  lemma HomeInRange(hh: int -> nat, nb: int, k: int)
    requires PowerOfTwo(nb)
    ensures Home(hh, nb, k) < nb
  {
    var e: nat :| nb == Pow2(e);
    AndLowMask(hh(k), e);
    LowBitsIsMod(hh(k), e);
  }

  /** Every bucket on the path from `h` before `j` is occupied. */
  ghost predicate Probed(b: seq<int>, h: int, j: int)
    requires 0 <= h < |b| && 0 <= j < |b|
  {
    forall i :: 0 <= i < Dist(|b|, h, j) ==> b[Wrap(|b|, h, i)] != 0
  }

  // ----- the table -----

  /** Each entry number occurs in exactly one bucket, recorded in `pos`. */
  ghost predicate Placed(b: seq<int>, n: int, pos: seq<int>) {
    && |pos| == n
    && (forall s :: 0 <= s < n ==> 0 <= pos[s] < |b| && b[pos[s]] == s + 1)
    && (forall j :: 0 <= j < |b| ==> 0 <= b[j] <= n && (b[j] != 0 ==> pos[b[j] - 1] == j))
  }

  /** No entry's probe path has a gap before its bucket. */
  ghost predicate NoGaps(hh: int -> nat, b: seq<int>, keys: seq<int>, pos: seq<int>)
    requires PowerOfTwo(|b|) && Placed(b, |keys|, pos)
  {
    forall s :: 0 <= s < |keys| ==> HomeOk(hh, |b|, keys[s]) && Probed(b, Home(hh, |b|, keys[s]), pos[s])
  }

  ghost predicate HomeOk(hh: int -> nat, nb: int, k: int)
    requires nb > 0
  {
    Home(hh, nb, k) < nb
  }

  ghost predicate Table(hh: int -> nat, b: seq<int>, keys: seq<int>, pos: seq<int>) {
    PowerOfTwo(|b|) && Placed(b, |keys|, pos) && NoGaps(hh, b, keys, pos)
  }

  /** A table with more buckets than entries has a free bucket, so a probe that
      visits them all never comes back empty-handed. */
  lemma {:induction false} SomeFree(b: seq<int>, n: int, pos: seq<int>)
    requires Placed(b, n, pos) && n < |b|
    ensures exists j :: 0 <= j < |b| && b[j] == 0
  {
    if forall j :: 0 <= j < |b| ==> b[j] != 0 {
      forall j | 0 <= j < |b| ensures j in pos { assert pos[b[j] - 1] == j; }
      AllBelow(|b|, pos);
    }
  }

  lemma {:induction false} AllBelow(n: nat, s: seq<int>)
    requires forall j :: 0 <= j < n ==> j in s
    ensures n <= |s|
    decreases n
  {
    if n > 0 {
      var i := IndexOf(s, n - 1);
      var rest := RemoveAt(s, i);
      forall j | 0 <= j < n - 1 ensures j in rest {
        var m := IndexOf(s, j);
        assert rest[if m < i then m else m - 1] == j;
      }
      AllBelow(n - 1, rest);
    }
  }

  /** Putting a new entry into the first free bucket of its path. */
  lemma {:induction false} Place(hh: int -> nat, b: seq<int>, keys: seq<int>, pos: seq<int>, k: int, j: int)
    requires Table(hh, b, keys, pos) && 0 <= j < |b| && b[j] == 0
    requires Home(hh, |b|, k) < |b| && Probed(b, Home(hh, |b|, k), j)
    ensures Table(hh, b[j := |keys| + 1], keys + [k], pos + [j])
  {
    var b', keys', pos' := b[j := |keys| + 1], keys + [k], pos + [j];
    assert Placed(b', |keys'|, pos');
    forall s | 0 <= s < |keys'|
      ensures HomeOk(hh, |b'|, keys'[s]) && Probed(b', Home(hh, |b'|, keys'[s]), pos'[s])
    {
      assert HomeOk(hh, |b|, keys'[s]);
      if s < |keys| { assert Probed(b, Home(hh, |b|, keys[s]), pos[s]); }
    }
  }

  lemma {:induction false} EmptyTable(hh: int -> nat, b: seq<int>)
    requires PowerOfTwo(|b|) && forall j :: 0 <= j < |b| ==> b[j] == 0
    ensures Table(hh, b, [], [])
  {
  }

  /** A free bucket lies ahead on every path. */
  lemma {:induction false} FreeAhead(b: seq<int>, n: int, pos: seq<int>, h: int) returns (steps: int)
    requires Placed(b, n, pos) && n < |b| && 0 <= h < |b|
    ensures 0 <= steps < |b| && b[Wrap(|b|, h, steps)] == 0
  {
    SomeFree(b, n, pos);
    var free :| 0 <= free < |b| && b[free] == 0;
    steps := Dist(|b|, h, free);
  }

  lemma {:induction false} FirstFree(b: seq<int>, h: int, i: int)
    requires 0 <= h < |b| && 0 <= i < |b| && forall n :: 0 <= n < i ==> b[Wrap(|b|, h, n)] != 0
    ensures Probed(b, h, Wrap(|b|, h, i))
  {
    assert Dist(|b|, h, Wrap(|b|, h, i)) == i;
  }

  /** What a probe that has passed `i` buckets knows. */
  ghost predicate Passed(b: seq<int>, keys: seq<int>, h: int, q: int, i: int)
    requires 0 <= h < |b|
  {
    forall n :: 0 <= n < i <= |b| ==> 1 <= b[Wrap(|b|, h, n)] <= |keys| && keys[b[Wrap(|b|, h, n)] - 1] != q
  }

  lemma {:induction false} PassOne(b: seq<int>, keys: seq<int>, h: int, q: int, i: int)
    requires 0 <= h < |b| && 0 <= i < |b| && Passed(b, keys, h, q, i)
    requires 1 <= b[Wrap(|b|, h, i)] <= |keys| && keys[b[Wrap(|b|, h, i)] - 1] != q
    ensures Passed(b, keys, h, q, i + 1)
  {
  }

  /** An entry sits on its own path, behind occupied buckets only. */
  lemma {:induction false} OnPath(hh: int -> nat, b: seq<int>, keys: seq<int>, pos: seq<int>, s: int)
    requires Table(hh, b, keys, pos) && 0 <= s < |keys|
    ensures var h := Home(hh, |b|, keys[s]);
            var d := Dist(|b|, h, pos[s]);
            h < |b| && 0 <= d < |b| && b[Wrap(|b|, h, d)] == s + 1 && forall n :: 0 <= n < d ==> b[Wrap(|b|, h, n)] != 0
  {
    var h := Home(hh, |b|, keys[s]);
    assert HomeOk(hh, |b|, keys[s]) && Probed(b, h, pos[s]);
    assert Wrap(|b|, h, Dist(|b|, h, pos[s])) == pos[s];
  }

  lemma SlotRange(b: seq<int>, n: int, pos: seq<int>, j: int)
    requires n >= 0 && Placed(b, n, pos) && 0 <= j < |b|
    ensures 0 <= b[j] <= n
  {
  }

  /** A probe that meets a free bucket, having passed no equal key, shows the
      key absent. */
  lemma {:induction false} FreeMeansAbsent(hh: int -> nat, b: seq<int>, keys: seq<int>, pos: seq<int>, q: int, i: int)
    requires Table(hh, b, keys, pos) && Home(hh, |b|, q) < |b| && 0 <= i < |b|
    requires Passed(b, keys, Home(hh, |b|, q), q, i) && b[Wrap(|b|, Home(hh, |b|, q), i)] == 0
    ensures q !in keys && Probed(b, Home(hh, |b|, q), Wrap(|b|, Home(hh, |b|, q), i))
  {
    forall s | 0 <= s < |keys| ensures keys[s] != q {
      OnPath(hh, b, keys, pos, s);
    }
  }

  lemma {:induction false} AllOccupied(b: seq<int>, keys: seq<int>, h: int, q: int)
    requires 0 <= h < |b| && Passed(b, keys, h, q, |b|)
    ensures forall j :: 0 <= j < |b| ==> b[j] != 0
  {
    forall j | 0 <= j < |b| ensures b[j] != 0 {
      assert Wrap(|b|, h, Dist(|b|, h, j)) == j;
    }
  }

  /** Only a table without a free bucket can be passed from end to end. */
  lemma {:induction false} AllPassed(b: seq<int>, keys: seq<int>, pos: seq<int>, h: int, q: int)
    requires 0 <= h < |b| && Placed(b, |keys|, pos) && Passed(b, keys, h, q, |b|)
    ensures |keys| >= |b|
  {
    AllOccupied(b, keys, h, q);
    if |keys| < |b| { SomeFree(b, |keys|, pos); }
  }

  /** What a search for `q` returns: the bucket of its entry and the entry's
      number, or the free bucket where it would go, or -1 if there is none. */
  ghost predicate Searched(hh: int -> nat, b: seq<int>, keys: seq<int>, q: int, at: int, slot: int) {
    && (at == -1 ==> slot == 0 && |keys| >= |b|)
    && (at != -1 ==> 0 <= at < |b| && slot == b[at])
    && (slot != 0 ==> 1 <= slot <= |keys| && slot - 1 == IndexOf(keys, q))
    && (at != -1 && slot == 0 ==>
          q !in keys && Home(hh, |b|, q) < |b| && Probed(b, Home(hh, |b|, q), at))
  }

  /** One bucket on the way: it ends the search, or is passed. */
  lemma {:induction false} SearchStep(hh: int -> nat, b: seq<int>, keys: seq<int>, pos: seq<int>, q: int, i: int,
                                      at: int)
    requires Table(hh, b, keys, pos) && Distinct(keys) && Home(hh, |b|, q) < |b| && 0 <= i < |b|
    requires Passed(b, keys, Home(hh, |b|, q), q, i) && at == Wrap(|b|, Home(hh, |b|, q), i)
    ensures 0 <= b[at] <= |keys|
    ensures if b[at] == 0 || keys[b[at] - 1] == q then Searched(hh, b, keys, q, at, b[at])
            else Passed(b, keys, Home(hh, |b|, q), q, i + 1)
  {
    SlotRange(b, |keys|, pos, at);
    if b[at] == 0 {
      FreeMeansAbsent(hh, b, keys, pos, q, i);
    } else if keys[b[at] - 1] == q {
      IndexIs(keys, b[at] - 1);
    } else {
      PassOne(b, keys, Home(hh, |b|, q), q, i);
    }
  }

  /** The container. `hh` stands for the hash of a key, read as unsigned. */
  class OxHmap {
    const hh: int -> nat
    var len: int
    var cap: int
    var keys: array<int>
    var vals: array<int>
    var nbuckets: int
    var buckets: array<int>
    ghost var pos: seq<int>

    ghost predicate Shape()
      reads this, keys, vals
    {
      && 0 <= len <= cap && keys.Length == cap && vals.Length == cap && buckets.Length == nbuckets
      && keys != vals && keys != buckets && vals != buckets
      && Distinct(keys[..len])
    }

    /** Entries numbered in insertion order, probe paths without gaps, and the
        load factor kept at or below three quarters. */
    ghost predicate Valid()
      reads this, keys, vals, buckets
    {
      && Shape()
      && (nbuckets == 0 ==> len == 0)
      && (nbuckets > 0 ==> nbuckets >= 16 && 4 * len <= 3 * nbuckets && Table(hh, buckets[..], keys[..len], pos))
    }

    ghost function Contents(): (e: Entries)
      reads this, keys, vals
      requires Shape()
      ensures Proper(e)
    {
      Entries(keys[..len], vals[..len])
    }

    ghost function Arrays(): set<array<int>>
      reads this
    {
      {keys, vals, buckets}
    }

    constructor (hash: int -> nat)
      ensures Valid() && Contents() == Entries([], []) && fresh(Arrays()) && hh == hash
    {
      hh := hash;
      len, cap, nbuckets := 0, 0, 0;
      keys, vals, buckets := new int[0], new int[0], new int[0];
      pos := [];
    }

    /** `ox_hmap_find`: the bucket of the key or the free one where it would go,
        or -1 after passing every bucket; `slot` is the entry's number or 0. */
    method Find(q: int) returns (b: int, slot: int)
      requires Shape() && Table(hh, buckets[..], keys[..len], pos)
      ensures Searched(hh, buckets[..], keys[..len], q, b, slot)
    {
      var nb, mask := nbuckets, nbuckets - 1;
      var h := BitAnd(hh(q), mask);
      ghost var bs, ks := buckets[..], keys[..len];
      HomeInRange(hh, nb, q);
      var i := 0;
      while i < nb
        invariant 0 <= i <= nb && Passed(bs, ks, h, q, i)
      {
        MaskWraps(nb, h, i);
        b := BitAnd(h + i, mask);
        slot := buckets[b];
        SearchStep(hh, bs, ks, pos, q, i, b);
        assert slot == bs[b] && (slot != 0 ==> keys[slot - 1] == ks[slot - 1]);
        if slot == 0 { return; }
        if keys[slot - 1] == q { return; }
        i := i + 1;
      }
      AllPassed(bs, ks, pos, h, q);
      b, slot := -1, 0;
    }

    /** `ox_hmap_rehash`: a table of `nnb` buckets for the same entries. */
    method Rehash(nnb: int)
      requires Shape() && PowerOfTwo(nnb) && len < nnb
      modifies this`buckets, this`nbuckets, this`pos
      ensures Shape() && Contents() == old(Contents()) && nbuckets == nnb
      ensures Table(hh, buckets[..], keys[..len], pos) && fresh(buckets)
    {
      var table := new int[nnb](_ => 0);
      buckets, nbuckets, pos := table, nnb, [];
      EmptyTable(hh, table[..]);
      var mask := nnb - 1;
      var s := 1;
      while s <= len
        invariant 1 <= s <= len + 1 && buckets == table && nbuckets == nnb
        invariant Table(hh, table[..], keys[..s - 1], pos)
      {
        PlaceEntry(s, mask);
        s := s + 1;
      }
      assert keys[..s - 1] == keys[..len];
    }

    /** The inner loop of the rehash: entry `s` goes into the first free bucket
        of its path. */
    method PlaceEntry(s: int, mask: int)
      requires Shape() && 1 <= s <= len < nbuckets && mask == nbuckets - 1
      requires Table(hh, buckets[..], keys[..s - 1], pos)
      modifies buckets, this`pos
      ensures Table(hh, buckets[..], keys[..s], pos)
    {
      var nb, key := nbuckets, keys[s - 1];
      var h := BitAnd(hh(key), mask);
      HomeInRange(hh, nb, key);
      ghost var bs := buckets[..];
      ghost var steps := FreeAhead(bs, s - 1, pos, h);
      var i := 0;
      while i < nb
        invariant 0 <= i <= steps && buckets[..] == bs && pos == old(pos)
        invariant forall n :: 0 <= n < i ==> bs[Wrap(nb, h, n)] != 0
      {
        MaskWraps(nb, h, i);
        var b := BitAnd(h + i, mask);
        assert buckets[b] == bs[b];
        if buckets[b] == 0 {
          FirstFree(bs, h, i);
          PutAt(b, s);
          return;
        }
        i := i + 1;
      }
    }

    method PutAt(b: int, s: int)
      requires Shape() && 1 <= s <= len && 0 <= b < nbuckets && buckets[b] == 0
      requires Table(hh, buckets[..], keys[..s - 1], pos)
      requires Home(hh, nbuckets, keys[s - 1]) < nbuckets && Probed(buckets[..], Home(hh, nbuckets, keys[s - 1]), b)
      modifies buckets, this`pos
      ensures Table(hh, buckets[..], keys[..s], pos)
    {
      ghost var bs := buckets[..];
      Place(hh, bs, keys[..s - 1], pos, keys[s - 1], b);
      buckets[b] := s;
      pos := pos + [b];
      assert buckets[..] == bs[b := s] && keys[..s] == keys[..s - 1] + [keys[s - 1]];
    }

    /** Room for one more entry in the arrays. */
    method GrowArrays()
      requires Shape() && buckets !in {keys, vals}
      modifies this`keys, this`vals, this`cap
      ensures Shape() && Contents() == old(Contents()) && len < cap
      ensures fresh({keys, vals} - old({keys, vals}))
    {
      if cap == 0 {
        cap := 8;
        keys, vals := new int[8], new int[8];
      }
      if cap <= len + 1 {
        var nc := if cap != 0 then cap * 2 else 8;
        var ks, vs := new int[nc], new int[nc];
        forall j | 0 <= j < cap { ks[j] := keys[j]; }
        forall j | 0 <= j < cap { vs[j] := vals[j]; }
        assert ks[..len] == keys[..len] && vs[..len] == vals[..len];
        keys, vals, cap := ks, vs, nc;
      }
    }

    /** `ox_hmap_grow`: room for one more entry in the arrays, and buckets enough
        to keep the load factor with it. */
    method Grow()
      requires Valid()
      modifies this
      ensures Valid() && Contents() == old(Contents()) && len < cap
      ensures nbuckets > 0 && 4 * (len + 1) <= 3 * nbuckets
      ensures fresh(Arrays() - old(Arrays()))
    {
      GrowArrays();
      if len + 1 <= nbuckets * 3 / 4 { return; }
      var nnb := if nbuckets != 0 then nbuckets * 2 else 16;
      Doubled(nbuckets);
      Rehash(nnb);
    }

    /** `ox_hmap_set` */
    method Set(k: int, v: int)
      requires Valid()
      modifies this, Arrays()
      ensures Valid() && fresh(Arrays() - old(Arrays()))
      ensures Contents() == HashSet(old(Contents()), k, v)
    {
      ghost var e := Contents();
      if nbuckets == 0 { Grow(); }
      var b, slot := Find(k);
      if slot != 0 {
        assert HashSet(e, k, v) == Entries(e.keys, e.vals[slot - 1 := v]);
        Replace(slot, v);
        return;
      }
      assert HashSet(e, k, v) == Entries(e.keys + [k], e.vals + [v]);
      Insert(k, v);
    }

    /** The rest of `ox_hmap_set` for a key that is not there yet. */
    method Insert(k: int, v: int)
      requires Valid() && k !in keys[..len]
      modifies this, Arrays()
      ensures Valid() && fresh(Arrays() - old(Arrays()))
      ensures Contents() == Entries(old(Contents()).keys + [k], old(Contents()).vals + [v])
    {
      ghost var e := Contents();
      Grow();
      var b, slot := Find(k);
      assert IndexOf(e.keys, k) == |e.keys|;
      Append(k, v, b);
    }

    method Replace(slot: int, v: int)
      requires Valid() && 1 <= slot <= len
      modifies vals
      ensures Valid() && Contents() == Entries(old(Contents()).keys, old(Contents()).vals[slot - 1 := v])
    {
      ghost var bs, ks := buckets[..], keys[..len];
      vals[slot - 1] := v;
      assert buckets[..] == bs && keys[..len] == ks;
    }

    /** The end of `ox_hmap_set`: a new last entry, reached from bucket `b`. */
    method Append(k: int, v: int, b: int)
      requires Valid() && nbuckets > 0 && len < cap && 4 * (len + 1) <= 3 * nbuckets
      requires k !in keys[..len] && 0 <= b < nbuckets && buckets[b] == 0
      requires Home(hh, nbuckets, k) < nbuckets && Probed(buckets[..], Home(hh, nbuckets, k), b)
      modifies this, Arrays()
      ensures Valid() && Arrays() == old(Arrays())
      ensures Contents() == Entries(old(Contents()).keys + [k], old(Contents()).vals + [v])
    {
      Place(hh, buckets[..], keys[..len], pos, k, b);
      ghost var bs, ks := buckets[..], keys[..len];
      var idx := len;
      keys[idx] := k;
      vals[idx] := v;
      len := len + 1;
      buckets[b] := len;
      pos := pos + [b];
      assert buckets[..] == bs[b := len] && keys[..len] == ks + [k];
    }

    /** `ox_hmap_get`: a missing key reads as zero. */
    method Get(k: int) returns (found: bool, v: int)
      requires Valid()
      ensures HashApply(Contents(), Op.Get(k)) == (Contents(), Got(found, v))
    {
      if nbuckets == 0 { return false, 0; }
      var _, slot := Find(k);
      if slot != 0 { return true, vals[slot - 1]; }
      return false, 0;
    }

    /** `ox_hmap_contains` */
    method Contains(k: int) returns (present: bool)
      requires Valid()
      ensures HashApply(Contents(), Op.Contains(k)) == (Contents(), Is(present))
    {
      if nbuckets == 0 { return false; }
      var _, slot := Find(k);
      return slot != 0;
    }

    /** `ox_hmap_delete` */
    method Delete(k: int)
      requires Valid()
      modifies this, Arrays()
      ensures Valid() && fresh(Arrays() - old(Arrays()))
      ensures Contents() == HashDelete(old(Contents()), k)
    {
      ghost var e := Contents();
      if nbuckets == 0 {
        assert e.keys == [];
        return;
      }
      var _, slot := Find(k);
      if slot == 0 {
        assert HashDelete(e, k) == e;
        return;
      }
      assert HashDelete(e, k) == Entries(RemoveSwap(e.keys, slot - 1), RemoveSwap(e.vals, slot - 1));
      Remove(slot - 1);
    }

    /** The rest of `ox_hmap_delete` for the entry that was found. */
    method Remove(idx: int)
      requires Valid() && 0 <= idx < len
      modifies this, Arrays()
      ensures Valid() && fresh(Arrays() - old(Arrays()))
      ensures Contents() == Entries(RemoveSwap(old(Contents()).keys, idx), RemoveSwap(old(Contents()).vals, idx))
    {
      DropEntry(idx);
      Rehash(nbuckets);
    }

    /** The last entry takes the place of entry `idx`. */
    method DropEntry(idx: int)
      requires Shape() && 0 <= idx < len
      modifies keys, vals, this`len
      ensures Shape() && len == old(len) - 1
      ensures Contents() == Entries(RemoveSwap(old(Contents()).keys, idx), RemoveSwap(old(Contents()).vals, idx))
    {
      ghost var ks, vs := keys[..len], vals[..len];
      var last := len - 1;
      if idx != last {
        keys[idx] := keys[last];
        vals[idx] := vals[last];
      }
      len := len - 1;
      RemoveSwapKeys(ks, idx);
      assert keys[..len] == RemoveSwap(ks, idx) && vals[..len] == RemoveSwap(vs, idx);
    }

    /** `ox_hmap_clear` */
    method Clear()
      requires Valid()
      modifies this, buckets
      ensures Valid() && Arrays() == old(Arrays()) && Contents() == Entries([], [])
    {
      len, pos := 0, [];
      for i := 0 to nbuckets
        invariant forall j :: 0 <= j < i ==> buckets[j] == 0
        modifies buckets
      {
        buckets[i] := 0;
      }
      if nbuckets > 0 { EmptyTable(hh, buckets[..]); }
    }
  }

  /** Doubling keeps the bucket count a power of two. */
  lemma Doubled(nb: int)
    requires nb == 0 || PowerOfTwo(nb)
    ensures PowerOfTwo(if nb != 0 then nb * 2 else 16)
  {
    if nb == 0 {
      assert Pow2(4) == 16;
    } else {
      var k: nat :| nb == Pow2(k);
      assert Pow2(k + 1) == nb * 2;
    }
  }
}
