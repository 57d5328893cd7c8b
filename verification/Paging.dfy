/**
 Pages of a listing: the window an offset, counted from 1, and a limit select. One provider indexes
 a vector, the other skips and breaks while it runs through a sorted map.
 */
module Paging {

  const INT_MAX := 0x7FFF_FFFF
  const SIZE_MODULUS: int := 0x1_0000_0000_0000_0000

  predicate IsInt(x: int) {
    -INT_MAX - 1 <= x <= INT_MAX
  }

  /** An `int` compared with a `size_t` is converted first: a negative one becomes huge. */
  function AsSize(x: int): nat
    requires IsInt(x)
  {
    if x < 0 then x + SIZE_MODULUS else x
  }

  /** The sums the providers form stay within `int`, and so does the size of the listing and one more. */
  predicate NoOverflow(size: nat, offset: int, limit: int) {
    size < INT_MAX && IsInt(offset - 1) && IsInt(limit + offset) && IsInt(limit + offset - 1)
  }

  function Min(a: int, b: int): int {
    if a < b then a else b
  }

  /**
   What a page should be: nothing when the offset is not a position of the listing, and the next
   `limit` entries from there otherwise. A limit so far below zero that the page would end before the
   listing begins selects all the rest; any other negative limit selects nothing.
   */
  function Window<T>(list: seq<T>, offset: int, limit: int): seq<T> {
    if !(1 <= offset <= |list|) then []
    else if limit >= 0 then list[offset - 1..Min(offset - 1 + limit, |list|)]
    else if limit + offset - 1 < 0 then list[offset - 1..]
    else []
  }

  /** The two bounds both providers compute. */
  method Bounds(size: nat, offset: int, limit: int) returns (start: int, end: int)
    requires NoOverflow(size, offset, limit)
    ensures 0 <= start && 0 <= end <= size
    ensures 1 <= offset <= size ==> start == offset - 1
    ensures !(1 <= offset <= size) ==> start > size
    ensures end == if 0 <= limit + offset - 1 <= size then limit + offset - 1 else size
  {
    start := if offset > size then size + 1 else offset - 1;
    start := if start < 0 then size + 1 else start;
    end := if AsSize(limit + offset - 1) > size then size else limit + offset - 1;
    end := if end < 0 then size else end;
  }

  /** The loop over a vector by index. */
  method ListFolderContents<T>(contVec: seq<T>, offset: int, limit: int) returns (contents: seq<T>)
    requires NoOverflow(|contVec|, offset, limit)
    ensures contents == Window(contVec, offset, limit)
  {
    var start, end := Bounds(|contVec|, offset, limit);
    contents := [];
    var index := start;
    while index < end
      invariant start <= index && (start <= end ==> index <= end)
      invariant contents == if start <= end then contVec[start..index] else []
    {
      contents := contents + [contVec[index]];
      index := index + 1;
    }
  }

  /** The loop over the entries of a sorted map, in key order, with `continue` and `break`. */
  method List<T>(entries: seq<T>, offset: int, limit: int) returns (contents: seq<T>)
    requires NoOverflow(|entries|, offset, limit)
    ensures contents == Window(entries, offset, limit)
  {
    var start, end := Bounds(|entries|, offset, limit);
    contents := [];
    var index := 0;
    var k := 0;
    while k < |entries|
      invariant 0 <= k <= |entries| && index == k
      invariant contents == if start <= Min(k, end) then entries[start..Min(k, end)] else []
    {
      var entry := entries[k];
      k := k + 1;
      if index < start {
        index := index + 1;
        continue;
      }
      if index >= end {
        break;
      }
      index := index + 1;
      contents := contents + [entry];
    }
  }

  /** Both loops select the same page. */
  method SamePage<T>(list: seq<T>, offset: int, limit: int) returns (a: seq<T>, b: seq<T>)
    requires NoOverflow(|list|, offset, limit)
    ensures a == b
  {
    a := ListFolderContents(list, offset, limit);
    b := List(list, offset, limit);
  }

  /** The first k pages of a given size, one after the other. */
  function Pages<T>(list: seq<T>, size: nat, k: nat): seq<T> {
    if k == 0 then [] else Pages(list, size, k - 1) + Window(list, 1 + (k - 1) * size, size)
  }

  /** The first k pages are the first k * size entries: none missing, none twice, all in order. */
  lemma {:induction false} PagesAreAPrefix<T>(list: seq<T>, size: nat, k: nat)
    requires size > 0
    ensures k * size >= 0 && Pages(list, size, k) == list[..Min(k * size, |list|)]
  {
    if k > 0 {
      PagesAreAPrefix(list, size, k - 1);
      assert k * size == (k - 1) * size + size;
    }
  }

  /** Asking for pages until they cover the listing gives the listing, and the next page is empty. */
  lemma PagesMakeTheWhole<T>(list: seq<T>, size: nat, k: nat)
    requires size > 0 && k * size >= |list|
    ensures Pages(list, size, k) == list
    ensures Window(list, 1 + k * size, size) == []
  {
    PagesAreAPrefix(list, size, k);
  }

  /** The first empty page marks the end exactly. */
  lemma EmptyPageMarksTheEnd<T>(list: seq<T>, size: nat, k: nat)
    requires size > 0
    ensures Window(list, 1 + k * size, size) == [] <==> Pages(list, size, k) == list
  {
    PagesAreAPrefix(list, size, k);
    var done := k * size;
    if done < |list| {
      assert |list[done..Min(done + size, |list|)]| > 0;
    }
  }

  /** A client that asks for page after page until one is empty has the whole listing, in order and once. */
  method FetchAll<T>(list: seq<T>, size: nat) returns (all: seq<T>, pages: nat)
    requires size > 0 && |list| + 2 * size <= INT_MAX
    ensures all == list
    ensures (pages - 1) * size < |list| <= pages * size || pages == 0 == |list|
  {
    all, pages := [], 0;
    var offset := 1;
    var page := ListFolderContents(list, offset, size);
    while page != []
      invariant offset == 1 + pages * size && offset <= |list| + size
      invariant all == Pages(list, size, pages) && page == Window(list, offset, size)
      invariant (pages - 1) * size < |list| || pages == 0
      decreases |list| + size - offset
    {
      all := all + page;
      pages := pages + 1;
      PagesAreAPrefix(list, size, pages);
      assert pages * size == (pages - 1) * size + size;
      offset := offset + size;
      page := ListFolderContents(list, offset, size);
    }
    EmptyPageMarksTheEnd(list, size, pages);
  }
}
