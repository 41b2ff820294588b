/**
 * Server-side pagination buttons (media/history.js:293-317 with page size 30,
 * media/object.js:408-435 with page size 50): `Math.ceil(len / pageSize)` numbered
 * buttons, button i asking for the items from offset `(i - 1) * pageSize`.
 */
module Pagination {
  /** `Math.ceil(n / size)` for a natural n and a positive size. */
  function CeilDiv(n: nat, size: nat): (pages: nat)
    requires size > 0
    ensures pages == 0 <==> n == 0
  {
    (n + size - 1) / size
  }

  /** `pages` buttons of `size` items hold all n items, and one button fewer would not. */
  lemma CeilDivBounds(n: nat, size: nat)
    requires size > 0
    ensures CeilDiv(n, size) * size >= n
    ensures CeilDiv(n, size) == 0 || (CeilDiv(n, size) - 1) * size < n
  {
    var q := (n + size - 1) / size;
    assert q * size + (n + size - 1) % size == n + size - 1;
  }

  /** The offsets requested by the numbered buttons, in button order. */
  method Paginate(len: nat, pageSize: nat) returns (offsets: seq<nat>)
    requires pageSize > 0
    ensures |offsets| == CeilDiv(len, pageSize)
    ensures forall i :: 0 <= i < |offsets| ==> offsets[i] == i * pageSize
  {
    var totalPage := CeilDiv(len, pageSize);
    offsets := [];
    for i := 1 to totalPage + 1
      invariant |offsets| == i - 1
      invariant forall k :: 0 <= k < |offsets| ==> offsets[k] == k * pageSize
    {
      offsets := offsets + [(i - 1) * pageSize];
    }
  }

  /**
   * Every item index below `len` is served by the button at `item / pageSize`: that
   * button exists and its window `[offset, offset + pageSize)` holds the item.
   */
  lemma ItemOnPage(len: nat, pageSize: nat, item: nat)
    requires pageSize > 0 && item < len
    ensures item / pageSize < CeilDiv(len, pageSize)
    ensures (item / pageSize) * pageSize <= item < (item / pageSize) * pageSize + pageSize
  {
    var q, pages := item / pageSize, CeilDiv(len, pageSize);
    assert q * pageSize + item % pageSize == item;
    CeilDivBounds(len, pageSize);
    if q >= pages {
      MulMonotone(pages, q, pageSize);
      assert false;
    }
  }

  /** The button windows do not overlap: only one of them holds a given item. */
  lemma PageOfItemUnique(pageSize: nat, item: nat, i: nat, j: nat)
    requires pageSize > 0
    requires i * pageSize <= item < i * pageSize + pageSize
    requires j * pageSize <= item < j * pageSize + pageSize
    ensures i == j
  {
    if i < j {
      MulMonotone(i + 1, j, pageSize);
    } else if j < i {
      MulMonotone(j + 1, i, pageSize);
    }
  }

  lemma MulMonotone(a: nat, b: nat, c: nat)
    requires a <= b
    ensures a * c <= b * c
  {
  }
}
