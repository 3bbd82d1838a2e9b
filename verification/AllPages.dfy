/** Loading all pages of a list endpoint (`src/lib/all.ts`). */
module AllPages {
  import opened Arithmetic
  import opened Sequences

  /** An endpoint: the items of page `p`, counted from one, at `size` a page. */
  type Endpoint<!T> = (nat, nat) -> seq<T>

  /** `Math.ceil(count / size)`. */
  function PageCount(count: nat, size: nat): nat
    requires size > 0
  {
    (count + size - 1) / size
  }

  function Pages<T>(endpoint: Endpoint<T>, pages: nat, size: nat): seq<seq<T>> {
    seq(pages, i requires 0 <= i < pages => endpoint(i + 1, size))
  }

  /** The first pages, as many as the count announced needs. */
  function AllItems<T>(endpoint: Endpoint<T>, count: nat, size: nat): seq<T>
    requires size > 0
  {
    Flatten(Pages(endpoint, PageCount(count, size), size))
  }

  /** `allViaLoader`, given the number in the `x-total-count` header (zero when it is absent).  `requests`
      are the calls it makes, as page and size: one for the count, then the fewest that cover it. */
  method AllViaLoader<T>(endpoint: Endpoint<T>, count: nat, size: nat)
      returns (items: seq<T>, ghost requests: seq<(nat, nat)>)
    requires size > 0
    ensures items == AllItems(endpoint, count, size)
    ensures |requests| > 0 && requests[0] == (1, 0)
    ensures forall k | 1 <= k < |requests| :: requests[k] == (k, size)
    ensures count <= (|requests| - 1) * size
    ensures |requests| > 1 ==> (|requests| - 2) * size < count
  {
    var pages := PageCount(count, size);
    requests := [(1, 0)];
    var bodies: seq<seq<T>> := [];
    for i := 0 to pages
      invariant bodies == Pages(endpoint, i, size)
      invariant |requests| == i + 1 && requests[0] == (1, 0)
      invariant forall k | 1 <= k <= i :: requests[k] == (k, size)
    {
      requests := requests + [(i + 1, size)];
      bodies := bodies + [endpoint(i + 1, size)];
    }
    items := Flatten(bodies);
    PagesCover(count, size);
  }

  /** Page `p` of a collection that does not change. */
  function Slice<T>(items: seq<T>, p: nat, size: nat): seq<T> {
    if p == 0 then []
    else
      var from := (p - 1) * size;
      Upto(items, from + size)[|Upto(items, from)|..]
  }

  function Upto<T>(items: seq<T>, n: int): seq<T> {
    if n <= 0 then [] else if n <= |items| then items[..n] else items
  }

  ghost predicate Serves<T>(endpoint: Endpoint<T>, items: seq<T>, size: nat) {
    forall p: nat | p > 0 :: endpoint(p, size) == Slice(items, p, size)
  }

  lemma {:induction false} FirstPages<T>(endpoint: Endpoint<T>, items: seq<T>, pages: nat, size: nat)
    requires Serves(endpoint, items, size)
    ensures Flatten(Pages(endpoint, pages, size)) == Upto(items, pages * size)
  {
    hide Slice, Upto, Flatten;
    if pages == 0 {
      NoPages(endpoint, items, size);
    } else {
      FirstPages(endpoint, items, pages - 1, size);
      assert Pages(endpoint, pages, size) == Pages(endpoint, pages - 1, size) + [endpoint(pages, size)];
      FlattenConcat(Pages(endpoint, pages - 1, size), [endpoint(pages, size)]);
      FlattenOne(endpoint(pages, size));
      assert endpoint(pages, size) == Slice(items, pages, size);
      SliceFollows(items, pages, size);
    }
  }

  lemma NoPages<T>(endpoint: Endpoint<T>, items: seq<T>, size: nat)
    ensures Flatten(Pages(endpoint, 0, size)) == Upto(items, 0)
  {
  }

  lemma SliceFollows<T>(items: seq<T>, p: nat, size: nat)
    requires p > 0
    ensures Upto(items, (p - 1) * size) + Slice(items, p, size) == Upto(items, p * size)
  {
    var from := (p - 1) * size;
    assert from + size == p * size;
    assert from >= 0;
  }

  lemma PagesCover(count: nat, size: nat)
    requires size > 0
    ensures var pages := PageCount(count, size);
            count <= pages * size && (pages > 0 ==> (pages - 1) * size < count)
  {
    DivisionIs(count + size - 1, size);
  }

  /** Whatever the count announced, the first pages are returned in order; and the whole collection,
      each item once, if and only if the pages counted cover it, as with the true count they do. */
  lemma AllPagesAreReturned<T>(endpoint: Endpoint<T>, items: seq<T>, count: nat, size: nat)
    requires size > 0 && Serves(endpoint, items, size)
    ensures AllItems(endpoint, count, size) == Upto(items, PageCount(count, size) * size)
    ensures AllItems(endpoint, count, size) == items <==> |items| <= PageCount(count, size) * size
    ensures count == |items| ==> AllItems(endpoint, count, size) == items
  {
    FirstPages(endpoint, items, PageCount(count, size), size);
    PagesCover(count, size);
  }
}
