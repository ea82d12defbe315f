/** `pages.sort((a, b) => new Date(b.date) - new Date(a.date))` (src/build.js:144).
    `Array.prototype.sort` is a stable sort; it is modelled by a stable insertion
    sort with the same comparator. A comparison involving a page without a date
    yields NaN, which the sort treats as "equal". */
module DateSort {
  import opened Common
  import opened Types

  /** The comparator is negative: `a` is strictly newer than `b`, so it goes first. */
  predicate Newer(a: Page, b: Page)
  {
    a.date.Some? && b.date.Some? && a.date.value > b.date.value
  }

  /** Insert `x` after every page that is not older than it. */
  function Insert(x: Page, sorted: seq<Page>): seq<Page>
  {
    if sorted == [] then [x]
    else if Newer(x, sorted[0]) then [x] + sorted
    else [sorted[0]] + Insert(x, sorted[1..])
  }

  function SortByDateDesc(pages: seq<Page>): (r: seq<Page>)
    ensures |r| == |pages|
  {
    if pages == [] then []
    else
      var init := SortByDateDesc(pages[..|pages| - 1]);
      InsertLength(pages[|pages| - 1], init);
      Insert(pages[|pages| - 1], init)
  }

  lemma {:induction false} InsertLength(x: Page, sorted: seq<Page>)
    ensures |Insert(x, sorted)| == |sorted| + 1
  {
    if sorted != [] && !Newer(x, sorted[0]) {
      InsertLength(x, sorted[1..]);
    }
  }

  predicate AllDated(pages: seq<Page>)
  {
    forall i | 0 <= i < |pages| :: pages[i].date.Some?
  }

  /** Newest first: no page is newer than one before it. */
  predicate DateDescending(pages: seq<Page>)
    requires AllDated(pages)
  {
    forall i, j | 0 <= i < j < |pages| :: pages[i].date.value >= pages[j].date.value
  }

  /** The pages with date `d`, in order. */
  function WithDate(pages: seq<Page>, d: int): seq<Page>
  {
    if pages == [] then []
    else (if pages[0].date == Some(d) then [pages[0]] else []) + WithDate(pages[1..], d)
  }

  lemma {:induction false} InsertPermutes(x: Page, sorted: seq<Page>)
    ensures multiset(Insert(x, sorted)) == multiset(sorted) + multiset{x}
  {
    if sorted != [] && !Newer(x, sorted[0]) {
      InsertPermutes(x, sorted[1..]);
      assert sorted == [sorted[0]] + sorted[1..];
    }
  }

  /** The sort rearranges the pages and loses or adds none, dated or not. */
  lemma {:induction false} SortPermutes(pages: seq<Page>)
    ensures multiset(SortByDateDesc(pages)) == multiset(pages)
  {
    if pages != [] {
      var init := pages[..|pages| - 1];
      SortPermutes(init);
      InsertPermutes(pages[|pages| - 1], SortByDateDesc(init));
      assert pages == init + [pages[|pages| - 1]];
    }
  }

  lemma {:induction false} InsertMembers(x: Page, sorted: seq<Page>)
    ensures forall q | q in Insert(x, sorted) :: q == x || q in sorted
  {
    if sorted != [] && !Newer(x, sorted[0]) {
      InsertMembers(x, sorted[1..]);
      assert forall q | q in sorted[1..] :: q in sorted;
    }
  }

  /** In a newest-first list, the head is at least as new as everything after it. */
  lemma HeadIsNewest(sorted: seq<Page>)
    requires sorted != [] && AllDated(sorted) && DateDescending(sorted)
    ensures forall q | q in sorted[1..] :: q.date.Some? && q.date.value <= sorted[0].date.value
  {
    forall q | q in sorted[1..]
      ensures q.date.Some? && q.date.value <= sorted[0].date.value
    {
      var k :| 0 <= k < |sorted[1..]| && sorted[1..][k] == q;
      assert sorted[k + 1] == q;
    }
  }

  /** A list whose head is at least as new as every page of a newest-first tail
      is newest first. */
  lemma ConsKeepsOrder(y: Page, rest: seq<Page>)
    requires y.date.Some? && AllDated(rest) && DateDescending(rest)
    requires forall q | q in rest :: q.date.value <= y.date.value
    ensures AllDated([y] + rest) && DateDescending([y] + rest)
  {
    var r := [y] + rest;
    assert forall j | 1 <= j < |r| :: r[j] == rest[j - 1] && rest[j - 1] in rest;
  }

  lemma InsertKeepsOrder(x: Page, sorted: seq<Page>)
    requires x.date.Some? && AllDated(sorted) && DateDescending(sorted)
    ensures AllDated(Insert(x, sorted)) && DateDescending(Insert(x, sorted))
    decreases |sorted|
  {
    if sorted == [] {
    } else if Newer(x, sorted[0]) {
      HeadIsNewest(sorted);
      assert sorted == [sorted[0]] + sorted[1..];
      ConsKeepsOrder(x, sorted);
    } else {
      var tail := sorted[1..];
      assert AllDated(tail) && DateDescending(tail) by {
        assert forall i | 0 <= i < |tail| :: tail[i] == sorted[i + 1];
      }
      InsertKeepsOrder(x, tail);
      InsertMembers(x, tail);
      HeadIsNewest(sorted);
      ConsKeepsOrder(sorted[0], Insert(x, tail));
    }
  }

  /** When every page has a date, the result is newest first. */
  lemma {:induction false} SortOrders(pages: seq<Page>)
    requires AllDated(pages)
    ensures AllDated(SortByDateDesc(pages)) && DateDescending(SortByDateDesc(pages))
  {
    if pages != [] {
      var init := pages[..|pages| - 1];
      assert AllDated(init) by {
        assert forall i | 0 <= i < |init| :: init[i] == pages[i];
      }
      SortOrders(init);
      InsertKeepsOrder(pages[|pages| - 1], SortByDateDesc(init));
    }
  }

  lemma {:induction false} WithDateAppend(a: seq<Page>, b: seq<Page>, d: int)
    ensures WithDate(a + b, d) == WithDate(a, d) + WithDate(b, d)
  {
    if a != [] {
      assert (a + b)[0] == a[0];
      assert (a + b)[1..] == a[1..] + b;
      WithDateAppend(a[1..], b, d);
    } else {
      assert a + b == b;
    }
  }

  lemma {:induction false} WithDateNone(pages: seq<Page>, d: int)
    requires forall i | 0 <= i < |pages| :: pages[i].date != Some(d)
    ensures WithDate(pages, d) == []
  {
    if pages != [] {
      WithDateNone(pages[1..], d);
    }
  }

  lemma DescendingTail(sorted: seq<Page>)
    requires sorted != [] && AllDated(sorted) && DateDescending(sorted)
    ensures AllDated(sorted[1..]) && DateDescending(sorted[1..])
  {
    var tail := sorted[1..];
    assert forall i | 0 <= i < |tail| :: tail[i] == sorted[i + 1];
  }

  /** Below a page newer than the head of a newest-first list, no page has its date. */
  lemma OlderThanHead(x: Page, sorted: seq<Page>)
    requires sorted != [] && AllDated(sorted) && DateDescending(sorted) && Newer(x, sorted[0])
    ensures forall i | 0 <= i < |sorted| :: sorted[i].date != x.date
  {
    forall i | 0 <= i < |sorted|
      ensures sorted[i].date != x.date
    {
      assert sorted[i].date.value <= sorted[0].date.value;
    }
  }

  lemma {:induction false} InsertStable(x: Page, sorted: seq<Page>, d: int)
    requires x.date.Some? && AllDated(sorted) && DateDescending(sorted)
    ensures WithDate(Insert(x, sorted), d) ==
      WithDate(sorted, d) + (if x.date == Some(d) then [x] else [])
    decreases |sorted|
  {
    if sorted == [] {
    } else if Newer(x, sorted[0]) {
      if x.date == Some(d) {
        OlderThanHead(x, sorted);
        WithDateNone(sorted, d);
      }
    } else {
      var head := sorted[0];
      var tail := sorted[1..];
      DescendingTail(sorted);
      InsertStable(x, tail, d);
      assert Insert(x, sorted) == [head] + Insert(x, tail);
      assert WithDate(Insert(x, sorted), d) ==
        (if head.date == Some(d) then [head] else []) + WithDate(Insert(x, tail), d);
      assert WithDate(sorted, d) == (if head.date == Some(d) then [head] else []) + WithDate(tail, d);
    }
  }

  /** The sort is stable: among dated pages with the same date, the original
      order is kept. */
  lemma {:induction false} SortStable(pages: seq<Page>, d: int)
    requires AllDated(pages)
    ensures WithDate(SortByDateDesc(pages), d) == WithDate(pages, d)
  {
    if pages != [] {
      var init := pages[..|pages| - 1];
      var last := pages[|pages| - 1];
      assert AllDated(init) by {
        assert forall i | 0 <= i < |init| :: init[i] == pages[i];
      }
      SortStable(init, d);
      SortOrders(init);
      InsertStable(last, SortByDateDesc(init), d);
      assert pages == init + [last];
      WithDateAppend(init, [last], d);
    }
  }
}
