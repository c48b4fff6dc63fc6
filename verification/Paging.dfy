/** Offset and limit, as the product listing and the in-memory repositories apply them. */
module Paging {
  import opened Wrappers

  function Min(a: nat, b: nat): nat {
    if a < b then a else b
  }

  /** `items[offset:]`, then `[:limit]` if there is a limit. */
  function Page<T>(items: seq<T>, offset: nat, limit: Option<nat>): seq<T> {
    var rest := items[Min(offset, |items|)..];
    if limit.None? then rest else rest[..Min(limit.value, |rest|)]
  }

  /** What a page holds, for every offset and every limit, none and 0 included. */
  lemma PageExactly<T>(items: seq<T>, offset: nat, limit: Option<nat>)
    ensures var page := Page(items, offset, limit);
      && (offset >= |items| ==> page == [])
      && (offset < |items| && limit.None? ==> |page| == |items| - offset)
      && (offset < |items| && limit.Some? && limit.value >= |items| - offset ==> |page| == |items| - offset)
      && (offset < |items| && limit.Some? && limit.value < |items| - offset ==> |page| == limit.value)
      && forall i :: 0 <= i < |page| ==> page[i] == items[offset + i]
  {
  }

  /** The pages at offset, offset + limit, offset + 2 * limit, and so on, one after the other. */
  function PagesFrom<T>(items: seq<T>, offset: nat, limit: nat): seq<T>
    requires limit > 0
    decreases |items| - offset
  {
    if offset >= |items| then [] else Page(items, offset, Some(limit)) + PagesFrom(items, offset + limit, limit)
  }

  /** Consecutive pages tile the list: every item once, in order, whatever the page size. */
  lemma {:induction false} PagesTile<T>(items: seq<T>, offset: nat, limit: nat)
    requires limit > 0
    ensures PagesFrom(items, offset, limit) == items[Min(offset, |items|)..]
    decreases |items| - offset
  {
    if offset < |items| {
      PagesTile(items, offset + limit, limit);
      var end := Min(offset + limit, |items|);
      assert Page(items, offset, Some(limit)) == items[offset..end];
      assert items[offset..] == items[offset..end] + items[end..];
    }
  }
}
