/** Tag aggregation in `generateHtmlFiles` (src/build.js:212-250): the set of
    distinct tags, the pages listed on each tag page and the counts on the tags
    index. A JavaScript `Set` iterates in insertion order, so the set is a
    duplicate-free sequence in first-seen order. */
module Tags {
  import opened Common
  import opened Types

  /** Every tag of every page, page by page, duplicates included. */
  function AllTags(pages: seq<Page>): (r: seq<string>)
    ensures forall t :: t in r <==> exists i | 0 <= i < |pages| :: t in pages[i].tags
  {
    if pages == [] then []
    else
      var init := pages[..|pages| - 1];
      var r := AllTags(init) + pages[|pages| - 1].tags;
      assert forall i | 0 <= i < |init| :: init[i] == pages[i];
      r
  }

  /** `s` with each element kept only where it first occurs. */
  function Dedup(s: seq<string>): (r: seq<string>)
    ensures forall x :: x in r <==> x in s
    ensures NoDuplicates(r)
  {
    if s == [] then []
    else
      var init := Dedup(s[..|s| - 1]);
      var x := s[|s| - 1];
      assert s == s[..|s| - 1] + [x];
      if x in init then init else init + [x]
  }

  /** The tag set: the distinct tags in the order they are first added. */
  function DistinctTags(pages: seq<Page>): (r: seq<string>)
    ensures NoDuplicates(r)
    ensures forall t :: t in r <==> exists i | 0 <= i < |pages| :: t in pages[i].tags
  {
    Dedup(AllTags(pages))
  }

  /** The position where `x` first occurs in `s`. */
  function FirstIndex<T(==)>(s: seq<T>, x: T): (r: nat)
    requires x in s
    ensures r < |s| && s[r] == x
    ensures forall i | 0 <= i < r :: s[i] != x
  {
    if s[0] == x then 0
    else
      assert s == [s[0]] + s[1..];
      1 + FirstIndex(s[1..], x)
  }

  lemma FirstIndexUnique<T>(s: seq<T>, x: T, k: nat)
    requires k < |s| && s[k] == x
    requires forall i | 0 <= i < k :: s[i] != x
    ensures FirstIndex(s, x) == k
  {
  }

  /** Extending a sequence does not move a first occurrence. */
  lemma FirstIndexExtend<T>(s: seq<T>, t: seq<T>, x: T)
    requires x in s
    ensures FirstIndex(s + t, x) == FirstIndex(s, x)
  {
    var k := FirstIndex(s, x);
    assert forall i | 0 <= i <= k :: (s + t)[i] == s[i];
    FirstIndexUnique(s + t, x, k);
  }

  /** First-seen order: an element that occurs first earlier in `s` comes earlier
      in `Dedup(s)`. */
  lemma {:induction false} DedupFirstSeenOrder(s: seq<string>)
    ensures forall i, j | 0 <= i < j < |Dedup(s)| ::
      FirstIndex(s, Dedup(s)[i]) < FirstIndex(s, Dedup(s)[j])
  {
    if s != [] {
      var init := s[..|s| - 1];
      var x := s[|s| - 1];
      var d := Dedup(init);
      var r := Dedup(s);
      DedupFirstSeenOrder(init);
      assert s == init + [x];
      forall y | y in d
        ensures FirstIndex(s, y) == FirstIndex(init, y)
      {
        FirstIndexExtend(init, [x], y);
      }
      if x !in d {
        assert forall i | 0 <= i < |init| :: s[i] == init[i] && init[i] != x;
        FirstIndexUnique(s, x, |init|);
        forall i, j | 0 <= i < j < |r|
          ensures FirstIndex(s, r[i]) < FirstIndex(s, r[j])
        {
          assert r[i] == d[i];
          if j < |d| {
            assert r[j] == d[j];
          } else {
            assert r[j] == x;
          }
        }
      }
    }
  }

  /** The distinct tags: each exactly once, exactly those some page carries, in the
      order the tags are first met walking the pages and their tag lists. */
  lemma DistinctTagsSpec(pages: seq<Page>)
    ensures NoDuplicates(DistinctTags(pages))
    ensures forall t :: t in DistinctTags(pages) <==> exists i | 0 <= i < |pages| :: t in pages[i].tags
    ensures forall i, j | 0 <= i < j < |DistinctTags(pages)| ::
      FirstIndex(AllTags(pages), DistinctTags(pages)[i]) < FirstIndex(AllTags(pages), DistinctTags(pages)[j])
  {
    DedupFirstSeenOrder(AllTags(pages));
  }

  lemma AllTagsSnoc(pages: seq<Page>, i: nat)
    requires i < |pages|
    ensures AllTags(pages[..i + 1]) == AllTags(pages[..i]) + pages[i].tags
  {
    assert pages[..i + 1][..i] == pages[..i];
  }

  /** Adding one element to the set: it goes at the end unless already present. */
  lemma DedupSnoc(s: seq<string>, x: string)
    ensures Dedup(s + [x]) == if x in Dedup(s) then Dedup(s) else Dedup(s) + [x]
  {
    assert (s + [x])[..|s|] == s;
  }

  /** The inner `forEach` (`page.tags.forEach(tag => tags.add(tag))`): adding the
      tags of one page to a set that holds the tags seen so far. */
  method AddTags(tags: seq<string>, ghost seen: seq<string>, pageTags: seq<string>)
    returns (added: seq<string>)
    requires tags == Dedup(seen)
    ensures added == Dedup(seen + pageTags)
  {
    added := tags;
    assert seen + pageTags[..0] == seen;
    for j := 0 to |pageTags|
      invariant added == Dedup(seen + pageTags[..j])
    {
      var t := pageTags[j];
      assert seen + pageTags[..j + 1] == (seen + pageTags[..j]) + [t];
      DedupSnoc(seen + pageTags[..j], t);
      if t !in added {
        added := added + [t];
      }
    }
    assert pageTags[..|pageTags|] == pageTags;
  }

  /** The `forEach` loops that fill the `tags` set: the result is the tag set. */
  method CollectTags(pages: seq<Page>) returns (tags: seq<string>)
    ensures tags == DistinctTags(pages)
  {
    tags := [];
    for i := 0 to |pages|
      invariant tags == Dedup(AllTags(pages[..i]))
    {
      AllTagsSnoc(pages, i);
      tags := AddTags(tags, AllTags(pages[..i]), pages[i].tags);
    }
    assert pages[..|pages|] == pages;
  }

  /** `pages.filter(page => page.tags && page.tags.includes(tag))`. */
  function TagPages(pages: seq<Page>, tag: string): (r: seq<Page>)
    ensures forall p :: p in r <==> p in pages && tag in p.tags
    ensures |r| <= |pages|
  {
    if pages == [] then []
    else
      var r := (if tag in pages[0].tags then [pages[0]] else []) + TagPages(pages[1..], tag);
      assert pages == [pages[0]] + pages[1..];
      r
  }

  /** `a` is `b` with some elements left out, the rest in their order. */
  predicate Subsequence<T(==)>(a: seq<T>, b: seq<T>)
    decreases |b|
  {
    a == [] ||
    (b != [] && ((a[0] == b[0] && Subsequence(a[1..], b[1..])) || Subsequence(a, b[1..])))
  }

  /** A tag page lists its pages in the order of the (sorted) page list. */
  lemma {:induction false} TagPagesInOrder(pages: seq<Page>, tag: string)
    ensures Subsequence(TagPages(pages, tag), pages)
  {
    if pages != [] {
      TagPagesInOrder(pages[1..], tag);
      var r := TagPages(pages, tag);
      if tag in pages[0].tags {
        assert r[0] == pages[0] && r[1..] == TagPages(pages[1..], tag);
      } else {
        assert r == TagPages(pages[1..], tag);
      }
    }
  }

  /** Filtering a concatenation filters each part. */
  lemma {:induction false} TagPagesAppend(a: seq<Page>, b: seq<Page>, tag: string)
    ensures TagPages(a + b, tag) == TagPages(a, tag) + TagPages(b, tag)
  {
    if a != [] {
      assert (a + b)[0] == a[0];
      assert (a + b)[1..] == a[1..] + b;
      TagPagesAppend(a[1..], b, tag);
    } else {
      assert a + b == b;
    }
  }

  /** When every page carries the tag, the tag page lists all of them. */
  lemma {:induction false} TagPagesAll(pages: seq<Page>, tag: string)
    requires forall i | 0 <= i < |pages| :: tag in pages[i].tags
    ensures TagPages(pages, tag) == pages
  {
    if pages != [] {
      TagPagesAll(pages[1..], tag);
    }
  }

  /** A tag some page carries has a non-empty tag page. */
  lemma TagPagesNonEmpty(pages: seq<Page>, tag: string)
    requires tag in DistinctTags(pages)
    ensures |TagPages(pages, tag)| >= 1
  {
    var i :| 0 <= i < |pages| && tag in pages[i].tags;
    assert pages[i] in TagPages(pages, tag);
  }

  /** `Array.from(tags).map(tag => ({ name: tag, count: ... }))`. */
  function TagSummaries(pages: seq<Page>, tags: seq<string>): (r: seq<TagSummary>)
    ensures |r| == |tags|
    ensures forall k | 0 <= k < |r| :: r[k].name == tags[k] && r[k].count == |TagPages(pages, tags[k])|
  {
    if tags == [] then []
    else [TagSummary(tags[0], |TagPages(pages, tags[0])|)] + TagSummaries(pages, tags[1..])
  }

  /** On the tags index every tag appears once, in set order, with a count between
      one and the number of pages: the length of its tag page. */
  lemma TagIndexCounts(pages: seq<Page>)
    ensures |TagSummaries(pages, DistinctTags(pages))| == |DistinctTags(pages)|
    ensures forall k | 0 <= k < |DistinctTags(pages)| ::
      var s := TagSummaries(pages, DistinctTags(pages))[k];
      s.name == DistinctTags(pages)[k] && 1 <= s.count <= |pages| &&
      s.count == |TagPages(pages, s.name)|
  {
    var tags := DistinctTags(pages);
    forall k | 0 <= k < |tags|
      ensures |TagPages(pages, tags[k])| >= 1
    {
      TagPagesNonEmpty(pages, tags[k]);
    }
  }

  /** When no page has a tag, the tag set is empty. */
  lemma {:induction false} NoTagsNoSet(pages: seq<Page>)
    requires forall i | 0 <= i < |pages| :: pages[i].tags == []
    ensures AllTags(pages) == [] && DistinctTags(pages) == []
  {
    if pages != [] {
      var init := pages[..|pages| - 1];
      assert forall i | 0 <= i < |init| :: init[i] == pages[i];
      NoTagsNoSet(init);
    }
  }

  /** A page that carries `tags` and nothing else of interest. */
  function Tagged(tags: seq<string>): Page
  {
    Page("", None, tags, "", "", "", "", FrontMatter(None, None, None, None, None, map[]), "")
  }

  /** Pages tagged ["a"], ["a", "b"] and ["b"]. */
  function ExamplePages(): seq<Page>
  {
    [Tagged(["a"]), Tagged(["a", "b"]), Tagged(["b"])]
  }

  lemma ExampleAllTags()
    ensures AllTags(ExamplePages()) == ["a", "a", "b", "b"]
  {
    var pages := ExamplePages();
    var p1, p2, p3 := pages[0], pages[1], pages[2];
    assert pages[..2] == [p1, p2] && [p1, p2][..1] == [p1] && [p1][..0] == [];
    assert AllTags([p1]) == ["a"] by {
      assert AllTags([p1]) == AllTags([]) + p1.tags;
    }
    assert AllTags([p1, p2]) == ["a", "a", "b"] by {
      assert AllTags([p1, p2]) == AllTags([p1]) + p2.tags;
    }
    assert AllTags(pages) == AllTags([p1, p2]) + p3.tags;
  }

  lemma ExampleDedup()
    ensures Dedup(["a", "a", "b", "b"]) == ["a", "b"]
  {
    var all: seq<string> := ["a", "a", "b", "b"];
    assert all[..3] == ["a", "a", "b"] && all[..3][..2] == ["a", "a"] && all[..3][..2][..1] == ["a"];
    assert Dedup(["a"]) == ["a"] by {
      assert ["a"][..0] == [];
    }
    assert "a" != "b" by {
      assert "a"[0] != "b"[0];
    }
    assert Dedup(["a", "a"]) == ["a"];
    assert Dedup(["a", "a", "b"]) == ["a", "b"];
  }

  lemma ExampleTagPages()
    ensures TagPages(ExamplePages(), "a") == ExamplePages()[..2]
    ensures TagPages(ExamplePages(), "b") == ExamplePages()[1..]
  {
    var pages := ExamplePages();
    var p1, p2, p3 := pages[0], pages[1], pages[2];
    assert "a" !in p3.tags && "b" !in p1.tags;
    assert pages[1..] == [p2, p3] && pages[1..][1..] == [p3] && [p3][1..] == [];
    assert TagPages([p3], "a") == [] by {
      assert TagPages([p3], "a") == [] + TagPages([], "a");
    }
    assert TagPages([p2, p3], "a") == [p2];
    assert TagPages([p3], "b") == [p3];
  }

  lemma ExampleSummaries(pages: seq<Page>)
    requires |TagPages(pages, "a")| == 2 && |TagPages(pages, "b")| == 2
    ensures TagSummaries(pages, ["a", "b"]) == [TagSummary("a", 2), TagSummary("b", 2)]
  {
    var ab: seq<string> := ["a", "b"];
    assert ab[1..] == ["b"] && ["b"][1..] == [];
  }

  /** The tags index for pages tagged ["a"], ["a", "b"] and ["b"]: a with two
      pages, then b with two pages. */
  lemma TagIndexExample()
    ensures DistinctTags(ExamplePages()) == ["a", "b"]
    ensures TagSummaries(ExamplePages(), DistinctTags(ExamplePages())) ==
      [TagSummary("a", 2), TagSummary("b", 2)]
  {
    ExampleAllTags();
    ExampleDedup();
    ExampleTagPages();
    ExampleSummaries(ExamplePages());
  }
}
