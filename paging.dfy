/** A paginated listing: the items of each page the cloud API returned, in the
    order the pages arrived. */
module Paging {

  /** Every item of every page, page by page. */
  function Flatten<T>(pages: seq<seq<T>>): seq<T> {
    if pages == [] then [] else Flatten(pages[..|pages| - 1]) + pages[|pages| - 1]
  }

  /** Reading one more page adds that page's items after all earlier ones. */
  lemma FlattenSnoc<T>(pages: seq<seq<T>>, page: seq<T>)
    ensures Flatten(pages + [page]) == Flatten(pages) + page
  {
    assert (pages + [page])[..|pages|] == pages;
  }

  /** The items listed do not depend on where the page boundaries fall:
      listing two runs of pages gives the items of the first run, then those of
      the second. */
  lemma {:induction false} FlattenConcat<T>(first: seq<seq<T>>, second: seq<seq<T>>)
    ensures Flatten(first + second) == Flatten(first) + Flatten(second)
    decreases |second|
  {
    if second == [] {
      assert first + second == first;
    } else {
      var init, last := second[..|second| - 1], second[|second| - 1];
      assert second == init + [last];
      assert first + second == (first + init) + [last];
      FlattenConcat(first, init);
      FlattenSnoc(first + init, last);
      FlattenSnoc(init, last);
    }
  }

  /** No item is lost and none is invented: an item is listed exactly when it
      is on some page. */
  lemma {:induction false} FlattenMembership<T>(pages: seq<seq<T>>, x: T)
    ensures x in Flatten(pages) <==> exists i :: 0 <= i < |pages| && x in pages[i]
    decreases |pages|
  {
    if pages != [] {
      var init := pages[..|pages| - 1];
      FlattenMembership(init, x);
      if x in Flatten(init) {
        var i :| 0 <= i < |init| && x in init[i];
        assert x in pages[i];
      }
      if exists i :: 0 <= i < |pages| && x in pages[i] {
        var i :| 0 <= i < |pages| && x in pages[i];
        if i < |init| {
          assert x in init[i];
        }
      }
    }
  }

  /** The number of items listed is the sum of the page sizes. */
  function TotalSize<T>(pages: seq<seq<T>>): nat {
    if pages == [] then 0 else TotalSize(pages[..|pages| - 1]) + |pages[|pages| - 1]|
  }

  lemma {:induction false} FlattenLength<T>(pages: seq<seq<T>>)
    ensures |Flatten(pages)| == TotalSize(pages)
    decreases |pages|
  {
    if pages != [] {
      FlattenLength(pages[..|pages| - 1]);
    }
  }
}
