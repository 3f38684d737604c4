/** The paginated address table. */
module AddressTable {
  import opened AddressModel

  function Min(a: int, b: int): (m: int) { if a <= b then a else b }

  /** `Array.prototype.slice(start, end)` for non-negative bounds: both are
      clamped to the length, and an end before the start gives nothing. */
  function Slice<T>(s: seq<T>, start: nat, end: nat): (r: seq<T>)
    ensures start >= |s| || end <= start ==> r == []
    ensures start < |s| && start < end ==> |r| == Min(end, |s|) - start
    ensures forall k :: 0 <= k < |r| ==> start + k < |s| && r[k] == s[start + k]
  {
    var from := Min(start, |s|);
    var to := Min(end, |s|);
    if to <= from then [] else s[from..to]
  }

  /** `pagedAddresses`: the page with the given index and size. */
  function Page<T>(all: seq<T>, index: nat, size: nat): (r: seq<T>)
    ensures |r| <= size
    ensures index * size >= |all| ==> r == []
    ensures index * size < |all| ==> |r| == Min(size, |all| - index * size) && r == all[index * size .. index * size + |r|]
  {
    var start := index * size;
    Slice(all, start, start + size)
  }

  /** Pages `0 .. count-1`, one after the other. */
  function Pages<T>(all: seq<T>, size: nat, count: nat): (r: seq<T>) {
    if count == 0 then [] else Pages(all, size, count - 1) + Page(all, count - 1, size)
  }

  lemma MulSucc(c: nat, size: nat)
    ensures (c + 1) * size == c * size + size
  {
  }

  /** The records before page `c`, followed by page `c`. */
  lemma PrefixThenPage<T>(all: seq<T>, c: nat, size: nat)
    ensures all[..Min(c * size, |all|)] + Page(all, c, size) == all[..Min(c * size + size, |all|)]
  {
    var start := c * size;
    var p := Page(all, c, size);
    if start < |all| {
      assert all[..start] + p == all[..start + |p|];
    }
  }

  /** The first `count` pages are the prefix of that many records. */
  lemma {:induction false} PagesArePrefix<T>(all: seq<T>, size: nat, count: nat)
    ensures Pages(all, size, count) == all[..Min(count * size, |all|)]
  {
    if count > 0 {
      var c := count - 1;
      PagesArePrefix(all, size, c);
      MulSucc(c, size);
      PrefixThenPage(all, c, size);
    }
  }

  /** For a positive size, the pages `0 .. ⌈n/size⌉-1` together are the whole list. */
  lemma AllPagesReproduceList<T>(all: seq<T>, size: nat)
    requires size > 0
    ensures Pages(all, size, (|all| + size - 1) / size) == all
  {
    var n := |all|;
    var q := (n + size - 1) / size;
    assert q * size + (n + size - 1) % size == n + size - 1;
    assert q * size >= n;
    PagesArePrefix(all, size, q);
  }

  /** The table: its bound list and the paginator's state. */
  class AddressTableComponent {
    var addresses: seq<Address>
    var pageIndex: nat
    var pageSize: nat

    constructor (addresses: seq<Address>)
      ensures this.addresses == addresses && pageIndex == 0 && pageSize == 10
    {
      this.addresses := addresses;
      pageIndex := 0;
      pageSize := 10;
    }

    function PagedAddresses(): (r: seq<Address>)
      reads this
      ensures |r| <= pageSize
      ensures pageIndex * pageSize >= |addresses| ==> r == []
      ensures pageIndex * pageSize < |addresses| ==>
        |r| == Min(pageSize, |addresses| - pageIndex * pageSize) && r == addresses[pageIndex * pageSize .. pageIndex * pageSize + |r|]
    {
      Page(addresses, pageIndex, pageSize)
    }

    /** A new list from the parent; the paginator's state is kept. */
    method SetAddresses(all: seq<Address>)
      modifies this
      ensures addresses == all && pageIndex == old(pageIndex) && pageSize == old(pageSize)
    {
      addresses := all;
    }

    /** `onPage`: takes both values from the paginator's event. */
    method OnPage(index: nat, size: nat)
      modifies this
      ensures pageIndex == index && pageSize == size && addresses == old(addresses)
    {
      pageIndex := index;
      pageSize := size;
    }
  }
}
