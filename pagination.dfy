/** The page loop shared by `fetch_sets`, `find_nightclubs` and
    `find_onlynoobs` in dump.py. The remote query is abstracted as a page
    source: for each page number, the nodes the server returns and the total
    it declares in `pageInfo.total`. */
module Pagination {

  datatype Page<T> = Page(nodes: seq<T>, total: int)

  /** Nodes of pages 1..n, in page order. */
  function Delivered<T>(source: nat -> Page<T>, n: nat): seq<T>
  {
    if n == 0 then [] else Delivered(source, n - 1) + source(n).nodes
  }

  /** The loop breaks after page n: the running count reaches page n's declared total. */
  predicate Stops<T>(source: nat -> Page<T>, n: nat)
  {
    n >= 1 && |Delivered(source, n)| >= source(n).total
  }

  /** Page n is the first page after which the loop breaks. */
  predicate StopsAt<T>(source: nat -> Page<T>, n: nat)
  {
    Stops(source, n) && forall m :: 1 <= m < n ==> !Stops(source, m)
  }

  /** The loop terminates on this source: some page reaches its declared total. */
  ghost predicate Terminates<T>(source: nat -> Page<T>)
  {
    exists n :: Stops(source, n)
  }

  lemma {:induction false} FirstStopExists<T>(source: nat -> Page<T>, n: nat)
    requires Stops(source, n)
    ensures exists k: nat :: k <= n && StopsAt(source, k)
    decreases n
  {
    if exists m :: 1 <= m < n && Stops(source, m) {
      var m :| 1 <= m < n && Stops(source, m);
      FirstStopExists(source, m);
    } else {
      assert StopsAt(source, n);
    }
  }

  /** The first stopping page is unique. */
  lemma StopsAtUnique<T>(source: nat -> Page<T>, n: nat, k: nat)
    requires StopsAt(source, n) && StopsAt(source, k)
    ensures n == k
  {
  }

  /** The page the loop ends on. */
  ghost function LastPage<T>(source: nat -> Page<T>): (n: nat)
    requires Terminates(source)
    ensures n >= 1 && StopsAt(source, n)
  {
    var m :| Stops(source, m);
    FirstStopExists(source, m);
    var n :| n <= m && StopsAt(source, n);
    n
  }

  /** Everything a terminating fetch yields. */
  ghost function Fetched<T>(source: nat -> Page<T>): seq<T>
    requires Terminates(source)
  {
    Delivered(source, LastPage(source))
  }

  /** The fetch loop: request pages 1, 2, ... until the running count of
      nodes reaches the total declared by the page just received. `requested`
      records the page numbers in the order they were asked for; `count` is the
      running total on exit. */
  method FetchAll<T>(source: nat -> Page<T>) returns (items: seq<T>, count: nat, requested: seq<nat>)
    requires Terminates(source)
    ensures |requested| >= 1
    ensures forall i :: 0 <= i < |requested| ==> requested[i] == i + 1
    ensures StopsAt(source, |requested|)
    ensures items == Delivered(source, |requested|) && items == Fetched(source)
    ensures count == |items| && count >= source(|requested|).total
  {
    ghost var bound: nat :| Stops(source, bound);
    var page: nat := 1;
    count := 0;
    items := [];
    requested := [];
    while true
      invariant 1 <= page <= bound
      invariant |requested| == page - 1
      invariant forall i :: 0 <= i < |requested| ==> requested[i] == i + 1
      invariant items == Delivered(source, page - 1)
      invariant count == |items|
      invariant forall m :: 1 <= m < page ==> !Stops(source, m)
      decreases bound - page
    {
      var result := source(page);
      requested := requested + [page];
      items := items + result.nodes;
      count := count + |result.nodes|;
      if count >= result.total {
        break;
      }
      page := page + 1;
    }
    StopsAtUnique(source, page, LastPage(source));
  }

  /** `count` never falls short of the last page's declared total. */
  lemma FetchReachesDeclaredTotal<T>(source: nat -> Page<T>)
    requires Terminates(source)
    ensures |Fetched(source)| >= source(LastPage(source)).total
  {
  }

  /** Extra nodes are not trimmed: a server that returns more nodes than it
      declares makes the fetch yield more than the declared total. */
  lemma OverDelivery()
    ensures var source := (n: nat) => Page([10, 20, 30], 2);
            Terminates(source) && LastPage(source) == 1 && |Fetched(source)| == 3 > source(1).total
  {
    var source := (n: nat) => Page([10, 20, 30], 2);
    assert Delivered(source, 1) == [10, 20, 30];
    assert StopsAt(source, 1);
    StopsAtUnique(source, 1, LastPage(source));
  }

  /** At least one page is requested, even when the first page declares 0. */
  lemma AtLeastOnePage<T>(source: nat -> Page<T>)
    requires source(1).total <= |source(1).nodes|
    ensures Terminates(source) && LastPage(source) == 1
  {
    assert Delivered(source, 1) == source(1).nodes;
    assert StopsAt(source, 1);
    StopsAtUnique(source, 1, LastPage(source));
  }

  lemma {:induction false} DeliveredStalls<T>(source: nat -> Page<T>, k: nat, n: nat)
    requires 1 <= k <= n
    requires forall m :: k <= m ==> source(m).nodes == []
    ensures Delivered(source, n) == Delivered(source, k - 1)
    decreases n
  {
    if n > k {
      DeliveredStalls(source, k, n - 1);
    }
  }

  /** If from page k on every page is empty while the declared total stays
      above what was delivered before page k, and the loop has not stopped
      before page k, it never stops. */
  lemma {:induction false} EmptyPagesNeverStop<T>(source: nat -> Page<T>, k: nat)
    requires k >= 1
    requires forall m :: 1 <= m < k ==> !Stops(source, m)
    requires forall m :: k <= m ==> source(m).nodes == [] && source(m).total > |Delivered(source, k - 1)|
    ensures !Terminates(source)
  {
    forall n: nat | Stops(source, n)
      ensures false
    {
      if n >= k {
        DeliveredStalls(source, k, n);
      }
    }
  }

  /** A server that splits `xs` into pages of `size` nodes and declares |xs|. */
  function Chunked<T>(xs: seq<T>, size: nat): nat -> Page<T>
  {
    (n: nat) => ChunkPage(xs, size, n)
  }

  /** Page n of `Chunked(xs, size)`. */
  function ChunkPage<T>(xs: seq<T>, size: nat, n: nat): Page<T>
  {
    var lo := if n == 0 then 0 else Min(Offset(n - 1, size), |xs|);
    Page(xs[lo..Min(Offset(n, size), |xs|)], |xs|)
  }

  /** n * size, written as repeated addition. */
  function Offset(n: nat, size: nat): nat
  {
    if n == 0 then 0 else Offset(n - 1, size) + size
  }

  function Min(a: int, b: int): int { if a <= b then a else b }

  lemma {:induction false} OffsetAtLeast(n: nat, size: nat)
    requires size > 0
    ensures Offset(n, size) >= n
  {
    if n > 0 {
      OffsetAtLeast(n - 1, size);
    }
  }

  lemma {:induction false} ChunkedPrefix<T>(xs: seq<T>, size: nat, n: nat)
    ensures Delivered(Chunked(xs, size), n) == xs[..Min(Offset(n, size), |xs|)]
  {
    if n > 0 {
      var source := Chunked(xs, size);
      ChunkedPrefix(xs, size, n - 1);
      var lo, hi := Min(Offset(n - 1, size), |xs|), Min(Offset(n, size), |xs|);
      assert source(n) == ChunkPage(xs, size, n);
      assert source(n).nodes == xs[lo..hi];
      calc {
        Delivered(source, n);
        Delivered(source, n - 1) + source(n).nodes;
        xs[..lo] + xs[lo..hi];
        { assert xs[..lo] + xs[lo..hi] == xs[..hi]; }
        xs[..hi];
      }
    }
  }

  /** Against a well-behaved server (fixed page size, consistent total) the
      fetch terminates and yields exactly the server's items, in order. */
  lemma WellBehavedServerYieldsAll<T>(xs: seq<T>, size: nat)
    requires size > 0
    ensures Terminates(Chunked(xs, size))
    ensures Fetched(Chunked(xs, size)) == xs
  {
    var source := Chunked(xs, size);
    var n := |xs| + 1;
    OffsetAtLeast(n, size);
    ChunkedPrefix(xs, size, n);
    assert Stops(source, n);
    var last := LastPage(source);
    ChunkedPrefix(xs, size, last);
    assert xs[..Min(Offset(last, size), |xs|)] == xs;
  }
}
