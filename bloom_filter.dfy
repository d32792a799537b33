/** A Bloom filter over a bit array (BloomFilter.py): adding an item sets
    the bits its `hashcount` digests select, and an item is reported
    present when all of its bits are set.  The hash (`mmh3.hash(item, i)`)
    is a parameter of the filter. */
module BloomFilter {

  class BloomFilter<T> {
    const size: nat
    const hashcount: nat
    const hash: (T, nat) -> int
    const bitarr: array<bool>
    var nadded: nat
    /** The items added since the filter was made or last cleared. */
    ghost var added: seq<T>

    /** The array has `size` bits, there is at least one bit and one hash,
        the counter counts the added items, and every added item has all
        of its bits set. */
    ghost predicate Valid()
      reads this, bitarr
    {
      && size >= 1 && hashcount >= 1 && bitarr.Length == size
      && nadded == |added|
      && forall i :: 0 <= i < |added| ==> AllSet(bitarr[..], added[i])
    }

    /** `mmh3.hash(item, i) % size`: Python's `%` with a positive divisor
        gives a bit index of the array. */
    function Digest(item: T, i: nat): (d: nat)
      requires size >= 1
      ensures d < size
    {
      hash(item, i) % size
    }

    /** All bits of `item` are set. */
    predicate AllSet(bits: seq<bool>, item: T)
      requires size >= 1 && |bits| == size
    {
      forall i :: 0 <= i < hashcount ==> bits[Digest(item, i)]
    }

    /** The bits after setting the digests `0 .. m-1` of `item`. */
    function Marked(bits: seq<bool>, item: T, m: nat): (r: seq<bool>)
      requires size >= 1 && |bits| == size
      ensures |r| == size
    {
      if m == 0 then bits else Marked(bits, item, m - 1)[Digest(item, m - 1) := true]
    }

    /** Marking sets exactly the digest bits and clears none. */
    lemma {:induction false} MarkedExact(bits: seq<bool>, item: T, m: nat, k: nat)
      requires size >= 1 && |bits| == size && k < size
      ensures Marked(bits, item, m)[k] <==> bits[k] || exists i :: 0 <= i < m && Digest(item, i) == k
    {
      if m > 0 {
        MarkedExact(bits, item, m - 1, k);
        if Digest(item, m - 1) == k {
          assert Marked(bits, item, m)[k];
        } else {
          assert Marked(bits, item, m)[k] == Marked(bits, item, m - 1)[k];
          if exists i :: 0 <= i < m && Digest(item, i) == k {
            var i :| 0 <= i < m && Digest(item, i) == k;
            assert i < m - 1;
          }
        }
      }
    }

    /** After `add(item)`, `check(item)` holds: no false negatives. */
    lemma NoFalseNegative(bits: seq<bool>, item: T)
      requires size >= 1 && |bits| == size
      ensures AllSet(Marked(bits, item, hashcount), item)
    {
      forall i | 0 <= i < hashcount
        ensures Marked(bits, item, hashcount)[Digest(item, i)]
      {
        MarkedExact(bits, item, hashcount, Digest(item, i));
      }
    }

    /** Adding never clears a bit, so an item that checks stays checking
        after any other item is added. */
    lemma AddKeeps(bits: seq<bool>, item: T, other: T)
      requires size >= 1 && |bits| == size && AllSet(bits, other)
      ensures AllSet(Marked(bits, item, hashcount), other)
    {
      forall i | 0 <= i < hashcount
        ensures Marked(bits, item, hashcount)[Digest(other, i)]
      {
        MarkedExact(bits, item, hashcount, Digest(other, i));
      }
    }

    /** `BloomFilter(nexpected, probfp)` with the sizing already worked
        out: `size` bits, all clear, and no item added. */
    constructor (size: nat, hashcount: nat, hash: (T, nat) -> int)
      requires size >= 1 && hashcount >= 1
      ensures Valid() && fresh(bitarr)
      ensures this.size == size && this.hashcount == hashcount && this.hash == hash
      ensures forall k :: 0 <= k < size ==> !bitarr[k]
      ensures nadded == 0 && added == []
    {
      this.size := size;
      this.hashcount := hashcount;
      this.hash := hash;
      bitarr := new bool[size];
      nadded := 0;
      added := [];
      new;
      SetAll();
    }

    /** `bitarr.setall(0)`. */
    method SetAll()
      modifies bitarr
      ensures forall k :: 0 <= k < bitarr.Length ==> !bitarr[k]
    {
      for k := 0 to bitarr.Length
        invariant forall j :: 0 <= j < k ==> !bitarr[j]
      {
        bitarr[k] := false;
      }
    }

    /** `len(bf)`: the number of items added. */
    function Length(): (n: nat)
      reads this, bitarr
      requires Valid()
      ensures n == |added|
    {
      nadded
    }

    /** `add(item)`: sets the bit of each of the `hashcount` digests and
        counts the item. */
    method Add(item: T)
      requires Valid()
      modifies this, bitarr
      ensures Valid()
      ensures bitarr[..] == Marked(old(bitarr[..]), item, hashcount)
      ensures nadded == old(nadded) + 1 && added == old(added) + [item]
    {
      ghost var before := bitarr[..];
      ghost var prev := added;
      SetDigests(item);
      nadded := nadded + 1;
      added := added + [item];
      NoFalseNegative(before, item);
      forall j | 0 <= j < |added|
        ensures AllSet(bitarr[..], added[j])
      {
        if j < |prev| {
          assert added[j] == prev[j] && AllSet(before, prev[j]);
          AddKeeps(before, item, added[j]);
        }
      }
    }

    /** The loop of `add`: the bit of each digest of `item` set in turn. */
    method SetDigests(item: T)
      requires size >= 1 && bitarr.Length == size
      modifies bitarr
      ensures bitarr[..] == Marked(old(bitarr[..]), item, hashcount)
    {
      ghost var before := bitarr[..];
      for i := 0 to hashcount
        invariant bitarr[..] == Marked(before, item, i)
      {
        bitarr[Digest(item, i)] := true;
      }
    }

    /** `check(item)`: false at the first digest whose bit is clear, true
        when every digest's bit is set. */
    method Check(item: T) returns (r: bool)
      requires Valid()
      ensures r == AllSet(bitarr[..], item)
      ensures r == forall i :: 0 <= i < hashcount ==> bitarr[Digest(item, i)]
    {
      for i := 0 to hashcount
        invariant forall j :: 0 <= j < i ==> bitarr[Digest(item, j)]
      {
        if !bitarr[Digest(item, i)] {
          return false;
        }
      }
      return true;
    }

    /** `item in bf`: the same as `check(item)`; every added item is
        reported present. */
    method Contains(item: T) returns (r: bool)
      requires Valid()
      ensures r == AllSet(bitarr[..], item)
      ensures (exists i :: 0 <= i < |added| && added[i] == item) ==> r
    {
      r := Check(item);
    }

    /** `clear()`: every bit cleared and the count back to zero. */
    method Clear()
      requires Valid()
      modifies this, bitarr
      ensures Valid()
      ensures forall k :: 0 <= k < size ==> !bitarr[k]
      ensures nadded == 0 && added == []
    {
      SetAll();
      nadded := 0;
      added := [];
    }
  }
}
