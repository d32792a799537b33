/** A sorted copy of a list of numbers with the original position of each
    (IndexedData.py): the constructor inserts the items one by one at the
    `bisect_right` position, into a typed `array` of values and a parallel
    array of positions. */
module IndexedData {
  import opened Base

  // ---------------------------------------------------------------------
  // Python's `array` type codes

  /** The type codes `array(typecode)` accepts. */
  const TypeCodes: string := "bBuhHiIlLqQfd"

  /** One past the largest magnitude an integer type code stores, for the
      item widths of a 64-bit Linux build. */
  function Bound(code: char): int
  {
    match code
    case 'b' => 0x80
    case 'B' => 0x100
    case 'h' => 0x8000
    case 'H' => 0x1_0000
    case 'i' => 0x8000_0000
    case 'I' => 0x1_0000_0000
    case 'l' => 0x8000_0000_0000_0000
    case 'q' => 0x8000_0000_0000_0000
    case _ => 0x1_0000_0000_0000_0000
  }

  /** 2^1024 - 2^970: the smallest magnitude of an integer that rounds,
      to 53 significant bits, to 2^1024 and so does not convert to a
      double. */
  const FloatLimit: int := 0xffff_ffff_ffff_fc00_0000_0000_0000_0000_0000_0000_0000_0000_0000_0000_0000_0000_0000_0000_0000_0000_0000_0000_0000_0000_0000_0000_0000_0000_0000_0000_0000_0000_0000_0000_0000_0000_0000_0000_0000_0000_0000_0000_0000_0000_0000_0000_0000_0000_0000_0000_0000_0000_0000_0000_0000_0000_0000_0000_0000_0000_0000_0000_0000_0000

  /** What inserting the integer `v` into an array of type `code` raises:
      a `u` array holds characters, so an integer is refused; a float
      array takes every integer that converts to a double; an integer
      array takes the integers its item width holds, signed or unsigned. */
  function Check(code: char, v: int): (e: Option<Error>)
    requires code in TypeCodes
    ensures code in "fd" ==> (e == None <==> -FloatLimit < v < FloatLimit)
    ensures code == 'u' ==> e == Some(TypeError)
    ensures code in "bhilq" ==> (e == None <==> -Bound(code) <= v < Bound(code))
    ensures code in "BHILQ" ==> (e == None <==> 0 <= v < Bound(code))
    ensures e == None || e == Some(TypeError) || e == Some(OverflowError)
  {
    if code == 'u' then Some(TypeError)
    else if code in "fd" then
      if -FloatLimit < v < FloatLimit then None else Some(OverflowError)
    else if code in "bhilq" then
      if -Bound(code) <= v < Bound(code) then None else Some(OverflowError)
    else
      if 0 <= v < Bound(code) then None else Some(OverflowError)
  }

  /** The error of the first item the array refuses, if any. */
  function FirstRejected(code: char, items: seq<int>): (e: Option<Error>)
    requires code in TypeCodes
    ensures e == None <==> forall k :: 0 <= k < |items| ==> Check(code, items[k]) == None
  {
    if items == [] then None
    else if Check(code, items[0]).Some? then Check(code, items[0])
    else
      var rest := FirstRejected(code, items[1..]);
      assert forall k :: 1 <= k < |items| ==> items[1..][k - 1] == items[k];
      rest
  }

  /** What the constructor raises: `array(typecode)` wants a single
      character, and one of the type codes; then each item must fit. */
  function Failure(items: seq<int>, typecode: string): Option<Error>
  {
    if |typecode| != 1 then Some(TypeError)
    else if typecode[0] !in TypeCodes then Some(ValueError)
    else FirstRejected(typecode[0], items)
  }

  // ---------------------------------------------------------------------
  // Binary insertion

  predicate Sorted(s: seq<int>)
  {
    forall j, k :: 0 <= j < k < |s| ==> s[j] <= s[k]
  }

  /** `bisect.bisect_right(s, x)`: the length of the longest prefix of `s`
      with no element above `x`. */
  function UpperBound(s: seq<int>, x: int): (p: nat)
    ensures p <= |s|
    ensures forall k :: 0 <= k < p ==> s[k] <= x
    ensures p < |s| ==> s[p] > x
  {
    if s == [] || s[0] > x then 0
    else
      var p := 1 + UpperBound(s[1..], x);
      assert forall k :: 1 <= k < |s| ==> s[1..][k - 1] == s[k];
      p
  }

  /** In a sorted sequence everything from `bisect_right`'s position on
      is above `x`. */
  lemma UpperBoundAbove(s: seq<int>, x: int)
    requires Sorted(s)
    ensures forall k :: UpperBound(s, x) <= k < |s| ==> s[k] > x
  {
  }

  /** The one position that splits a sorted sequence into the elements not
      above `x` and the elements above it is `bisect_right`'s. */
  lemma UpperBoundUnique(s: seq<int>, x: int, p: nat)
    requires p <= |s|
    requires forall k :: 0 <= k < p ==> s[k] <= x
    requires forall k :: p <= k < |s| ==> s[k] > x
    ensures UpperBound(s, x) == p
  {
    if p < |s| {
      assert s[p] > x;
    }
  }

  /** `bisect.bisect` (that is, `bisect_right`): binary search for the
      position after the last element not above `x`. */
  method BisectRight(s: seq<int>, x: int) returns (p: nat)
    requires Sorted(s)
    ensures p == UpperBound(s, x)
    ensures p <= |s| && (forall k :: 0 <= k < p ==> s[k] <= x) && (forall k :: p <= k < |s| ==> s[k] > x)
  {
    var lo, hi := 0, |s|;
    while lo < hi
      invariant 0 <= lo <= hi <= |s|
      invariant forall k :: 0 <= k < lo ==> s[k] <= x
      invariant forall k :: hi <= k < |s| ==> s[k] > x
    {
      var mid := (lo + hi) / 2;
      if x < s[mid] {
        hi := mid;
      } else {
        lo := mid + 1;
      }
    }
    UpperBoundUnique(s, x, lo);
    p := lo;
  }

  /** `list.insert(p, v)` on an array: `v` lands at `p`, and the elements
      from `p` on move one place up. */
  function Ins(s: seq<int>, p: nat, v: int): (r: seq<int>)
    requires p <= |s|
    ensures |r| == |s| + 1 && r[p] == v
    ensures forall k :: 0 <= k < p ==> r[k] == s[k]
    ensures forall k :: p < k < |r| ==> r[k] == s[k - 1]
  {
    s[..p] + [v] + s[p..]
  }

  /** Inserting adds the one value and keeps every other. */
  lemma InsMultiset(s: seq<int>, p: nat, v: int)
    requires p <= |s|
    ensures multiset(Ins(s, p, v)) == multiset(s) + multiset{v}
  {
    assert s == s[..p] + s[p..];
  }

  lemma InsMembers(s: seq<int>, p: nat, v: int)
    requires p <= |s|
    ensures forall y :: y in Ins(s, p, v) <==> y in s || y == v
  {
    InsMultiset(s, p, v);
    forall y
      ensures y in Ins(s, p, v) <==> y in s || y == v
    {
      assert y in Ins(s, p, v) <==> y in multiset(Ins(s, p, v));
      assert y in s <==> y in multiset(s);
    }
  }

  // ---------------------------------------------------------------------
  // What the constructor builds

  datatype Sorting = Sorting(data: seq<int>, index: seq<int>)

  /** The arrays after inserting each item in turn, at the `bisect_right`
      position of the values inserted so far, together with its position
      in the input. */
  function Sort(items: seq<int>): (r: Sorting)
    ensures |r.data| == |items| && |r.index| == |items|
    decreases |items|
  {
    if items == [] then Sorting([], [])
    else
      var n := |items| - 1;
      var prev := Sort(items[..n]);
      var p := UpperBound(prev.data, items[n]);
      Sorting(Ins(prev.data, p, items[n]), Ins(prev.index, p, n))
  }

  /** The values come out in non-decreasing order. */
  lemma {:induction false} SortSorted(items: seq<int>)
    ensures Sorted(Sort(items).data)
    decreases |items|
  {
    if items != [] {
      var n := |items| - 1;
      var prev := Sort(items[..n]).data;
      SortSorted(items[..n]);
      UpperBoundAbove(prev, items[n]);
    }
  }

  /** Entry `j` holds the input item at position `index[j]`. */
  lemma {:induction false} SortPicks(items: seq<int>)
    ensures forall j :: 0 <= j < |items| ==>
      0 <= Sort(items).index[j] < |items| && Sort(items).data[j] == items[Sort(items).index[j]]
    decreases |items|
  {
    if items != [] {
      var n := |items| - 1;
      var prev := Sort(items[..n]);
      var p := UpperBound(prev.data, items[n]);
      SortPicks(items[..n]);
      var r := Sort(items);
      assert r.data == Ins(prev.data, p, items[n]) && r.index == Ins(prev.index, p, n);
      forall j | 0 <= j < |items|
        ensures 0 <= r.index[j] < |items| && r.data[j] == items[r.index[j]]
      {
        if j < p {
          assert r.index[j] == prev.index[j] && r.data[j] == prev.data[j];
        } else if j > p {
          assert r.index[j] == prev.index[j - 1] && r.data[j] == prev.data[j - 1];
        }
      }
    }
  }

  predicate Distinct(s: seq<int>)
  {
    forall j, k :: 0 <= j < k < |s| ==> s[j] != s[k]
  }

  /** The positions are a permutation of `0 .. n-1`: each appears exactly
      once. */
  lemma {:induction false} SortPermutes(items: seq<int>)
    ensures Distinct(Sort(items).index)
    ensures forall i :: i in Sort(items).index <==> 0 <= i < |items|
    decreases |items|
  {
    if items != [] {
      var n := |items| - 1;
      SortPermutes(items[..n]);
      var prev := Sort(items[..n]);
      var p := UpperBound(prev.data, items[n]);
      assert Sort(items).index == Ins(prev.index, p, n);
      InsMembers(prev.index, p, n);
      assert n !in prev.index;
      InsDistinct(prev.index, p, n);
    }
  }

  /** Inserting a new value keeps the elements distinct. */
  lemma InsDistinct(s: seq<int>, p: nat, v: int)
    requires p <= |s| && Distinct(s) && v !in s
    ensures Distinct(Ins(s, p, v))
  {
    var r := Ins(s, p, v);
    forall j, k | 0 <= j < k < |r|
      ensures r[j] != r[k]
    {
      if k < p {
        assert r[j] == s[j] && r[k] == s[k];
      } else if k == p {
        assert r[j] == s[j];
      } else if j < p {
        assert r[j] == s[j] && r[k] == s[k - 1];
      } else if j == p {
        assert r[k] == s[k - 1];
      } else {
        assert r[j] == s[j - 1] && r[k] == s[k - 1];
      }
    }
  }

  /** The insertion is stable: equal values keep their input order, so
      among equal values the positions ascend. */
  lemma {:induction false} SortStable(items: seq<int>)
    ensures forall j, k :: 0 <= j < k < |items| && Sort(items).data[j] == Sort(items).data[k] ==>
      Sort(items).index[j] < Sort(items).index[k]
    decreases |items|
  {
    if items != [] {
      var n := |items| - 1;
      var prev := Sort(items[..n]);
      var p := UpperBound(prev.data, items[n]);
      SortStable(items[..n]);
      IndexBelow(items[..n]);
      SortAbove(items[..n], items[n]);
      InsStable(prev.data, prev.index, p, items[n], n);
      assert Sort(items) == Sorting(Ins(prev.data, p, items[n]), Ins(prev.index, p, n));
    }
  }

  lemma IndexBelow(items: seq<int>)
    ensures forall j :: 0 <= j < |items| ==> 0 <= Sort(items).index[j] < |items|
  {
    SortPicks(items);
  }

  /** Everything from the insertion position on is above the value
      inserted. */
  lemma SortAbove(items: seq<int>, x: int)
    ensures forall k :: UpperBound(Sort(items).data, x) <= k < |items| ==> Sort(items).data[k] > x
  {
    SortSorted(items);
    UpperBoundAbove(Sort(items).data, x);
  }

  /** Inserting a value after every equal one, with a position above all
      positions so far, keeps equal values in ascending position order. */
  lemma InsStable(d: seq<int>, ix: seq<int>, p: nat, x: int, n: int)
    requires |d| == |ix| && p <= |d|
    requires forall j, k :: 0 <= j < k < |d| && d[j] == d[k] ==> ix[j] < ix[k]
    requires forall j :: 0 <= j < |ix| ==> ix[j] < n
    requires forall k :: p <= k < |d| ==> d[k] > x
    ensures forall j, k :: 0 <= j < k < |d| + 1 && Ins(d, p, x)[j] == Ins(d, p, x)[k] ==>
      Ins(ix, p, n)[j] < Ins(ix, p, n)[k]
  {
    var d', ix' := Ins(d, p, x), Ins(ix, p, n);
    forall j, k | 0 <= j < k < |d'| && d'[j] == d'[k]
      ensures ix'[j] < ix'[k]
    {
      if k < p {
        assert ix'[j] == ix[j] && ix'[k] == ix[k];
      } else if k == p {
        assert ix'[j] == ix[j];
      } else if j < p {
        assert d'[k] == d[k - 1] && ix'[k] == ix[k - 1];
      } else if j > p {
        assert d'[j] == d[j - 1] && d'[k] == d[k - 1];
      }
    }
  }

  /** The sorted values are the items themselves, each taken once. */
  lemma {:induction false} SortPermutation(items: seq<int>)
    ensures multiset(Sort(items).data) == multiset(items)
    decreases |items|
  {
    if items != [] {
      var n := |items| - 1;
      SortPermutation(items[..n]);
      SortLast(items);
      LastOf(items);
    }
  }

  /** The last step of the constructor's loop on the values. */
  lemma SortLast(items: seq<int>)
    requires items != []
    ensures var prev := Sort(items[..|items| - 1]);
      multiset(Sort(items).data) == multiset(prev.data) + multiset{items[|items| - 1]}
  {
    var n := |items| - 1;
    var prev := Sort(items[..n]);
    InsMultiset(prev.data, UpperBound(prev.data, items[n]), items[n]);
  }

  lemma LastOf(items: seq<int>)
    requires items != []
    ensures multiset(items) == multiset(items[..|items| - 1]) + multiset{items[|items| - 1]}
  {
    assert items == items[..|items| - 1] + [items[|items| - 1]];
  }

  // ---------------------------------------------------------------------
  // The object

  class IndexedData {
    const typecode: string
    var data: seq<int>
    var index: seq<int>
    /** The items given to the constructor. */
    ghost var items: seq<int>

    ghost predicate Valid()
      reads this
    {
      data == Sort(items).data && index == Sort(items).index
    }

    /** Empty arrays of the given type. */
    constructor Empty(typecode: string)
      ensures this.typecode == typecode && data == [] && index == [] && items == []
      ensures Valid()
    {
      this.typecode := typecode;
      data := [];
      index := [];
      items := [];
    }

    /** `IndexedData(data, type)`: each item is inserted at the
        `bisect_right` position of the values so far, its position in the
        input beside it; a bad type code or an item the array cannot hold
        raises. */
    static method New(items: seq<int>, typecode: string) returns (r: Result<IndexedData>)
      ensures r.Err? <==> Failure(items, typecode).Some?
      ensures r.Err? ==> r.error == Failure(items, typecode).value
      ensures r.Ok? ==> fresh(r.value) && r.value.Valid() && r.value.items == items && r.value.typecode == typecode
    {
      if |typecode| != 1 {
        return Err(TypeError);
      }
      var code := typecode[0];
      if code !in TypeCodes {
        return Err(ValueError);
      }
      var d := new IndexedData.Empty(typecode);
      for i := 0 to |items|
        invariant d.typecode == typecode && d.items == items[..i] && d.Valid()
        invariant FirstRejected(code, items) == FirstRejected(code, items[i..])
      {
        assert items[i..][0] == items[i] && items[i..][1..] == items[i + 1..];
        var e := Check(code, items[i]);
        if e.Some? {
          return Err(e.value);
        }
        d.Insert(i, items[i]);
        assert items[..i + 1] == items[..i] + [items[i]];
      }
      assert items[|items|..] == [] && items[..|items|] == items;
      return Ok(d);
    }

    /** One step of the constructor's loop: `n`, the item at position
        `i`, goes in at the `bisect_right` position of the values so far,
        and `i` at the same place in the positions. */
    method Insert(i: int, n: int)
      requires Valid() && i == |items|
      modifies this
      ensures Valid() && items == old(items) + [n]
    {
      SortSorted(items);
      var pos := BisectRight(data, n);
      assert (items + [n])[..|items|] == items;
      data := Ins(data, pos, n);
      index := Ins(index, pos, i);
      items := items + [n];
    }

    /** `len(x)`: the number of items given. */
    function Length(): (n: nat)
      reads this
      requires Valid()
      ensures n == |items| == |index|
    {
      |data|
    }

    /** `x[i]`: the method has no body, so it returns `None` for every
        index. */
    function GetItem(i: int): (r: Option<int>)
      ensures r == None
    {
      None
    }

    /** `add(value)`: does nothing. */
    method Add(value: int)
      ensures data == old(data) && index == old(index) && items == old(items)
    {
    }
  }
}
