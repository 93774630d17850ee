/** The grouping step of `generate_enhanced_html`: articles bucketed by category,
    sections in the order their first article appears. */
module Digest {
  import opened Seqs
  import opened Articles

  /** The number of articles in the buckets of `order`. */
  function TotalSize(order: seq<string>, buckets: map<string, seq<Article>>): nat
    decreases |order|
  {
    if |order| == 0 then 0
    else
      var c := order[|order| - 1];
      TotalSize(order[..|order| - 1], buckets) + (if c in buckets then |buckets[c]| else 0)
  }

  /** Changing a bucket outside `order` changes no total. */
  lemma {:induction false} TotalSizeUnaffected(order: seq<string>, buckets: map<string, seq<Article>>,
                                               c: string, bucket: seq<Article>)
    requires c !in order
    ensures TotalSize(order, buckets[c := bucket]) == TotalSize(order, buckets)
    decreases |order|
  {
    if |order| > 0 {
      assert c !in order[..|order| - 1] by {
        assert forall p :: 0 <= p < |order| - 1 ==> order[..|order| - 1][p] == order[p];
      }
      TotalSizeUnaffected(order[..|order| - 1], buckets, c, bucket);
    }
  }

  /** Appending one article to a bucket listed once in `order` adds one to the total. */
  lemma {:induction false} TotalSizeGrow(order: seq<string>, buckets: map<string, seq<Article>>, c: string, a: Article)
    requires NoDuplicates(order) && c in order && c in buckets
    ensures TotalSize(order, buckets[c := buckets[c] + [a]]) == TotalSize(order, buckets) + 1
    decreases |order|
  {
    var init := order[..|order| - 1];
    var last := order[|order| - 1];
    if last == c {
      assert c !in init by {
        assert forall p :: 0 <= p < |init| ==> init[p] == order[p] != order[|order| - 1];
      }
      TotalSizeUnaffected(init, buckets, c, buckets[c] + [a]);
    } else {
      assert c in init by {
        var j :| 0 <= j < |order| && order[j] == c;
        assert init[j] == c;
      }
      assert NoDuplicates(init) by {
        assert forall p :: 0 <= p < |init| ==> init[p] == order[p];
      }
      TotalSizeGrow(init, buckets, c, a);
    }
  }

  /** Every bucket is its category's share of the first `n` articles. */
  ghost predicate BucketsMatch(articles: seq<Article>, n: nat, buckets: map<string, seq<Article>>)
    requires n <= |articles|
  {
    forall c :: c in buckets ==> buckets[c] == Where(articles[..n], CategoryOf, c) && |buckets[c]| > 0
  }

  /** A new category gets a bucket holding just the article. */
  lemma BucketsAfterNew(articles: seq<Article>, i: nat, buckets: map<string, seq<Article>>)
    requires i < |articles| && BucketsMatch(articles, i, buckets)
    requires forall j :: 0 <= j < i ==> articles[j].category != articles[i].category
    ensures BucketsMatch(articles, i + 1, buckets[articles[i].category := [articles[i]]])
  {
    var a := articles[i];
    assert forall j :: 0 <= j < i ==> CategoryOf(articles[..i][j]) != a.category by {
      assert forall j :: 0 <= j < i ==> articles[..i][j] == articles[j];
    }
    WhereNone(articles[..i], CategoryOf, a.category);
    forall c | c in buckets[a.category := [a]]
      ensures Where(articles[..i + 1], CategoryOf, c) == Where(articles[..i], CategoryOf, c) + (if a.category == c then [a] else [])
    {
      WhereExtend(articles, CategoryOf, c, i);
    }
  }

  /** An article of a known category is appended to its bucket. */
  lemma BucketsAfterGrow(articles: seq<Article>, i: nat, buckets: map<string, seq<Article>>)
    requires i < |articles| && BucketsMatch(articles, i, buckets) && articles[i].category in buckets
    ensures var c := articles[i].category;
            BucketsMatch(articles, i + 1, buckets[c := buckets[c] + [articles[i]]])
  {
    var a := articles[i];
    forall c | c in buckets
      ensures Where(articles[..i + 1], CategoryOf, c) == Where(articles[..i], CategoryOf, c) + (if a.category == c then [a] else [])
    {
      WhereExtend(articles, CategoryOf, c, i);
    }
  }

  /** The state of the grouping loop after the first `n` articles: `order` lists
      their categories by first appearance, each bucket holds that category's
      articles in input order, and no article is lost or counted twice. */
  ghost predicate Grouped(articles: seq<Article>, n: nat, order: seq<string>, buckets: map<string, seq<Article>>)
    requires n <= |articles|
  {
    && order == Distinct(Categories(articles)[..n])
    && (forall c :: c in buckets ==> c in order)
    && (forall j :: 0 <= j < |order| ==> order[j] in buckets)
    && BucketsMatch(articles, n, buckets)
    && TotalSize(order, buckets) == n
  }

  /** A category seen for the first time goes to the end of `order`. */
  lemma OrderAfterNew(cats: seq<string>, i: nat, order: seq<string>)
    requires i < |cats| && order == Distinct(cats[..i]) && cats[i] !in order
    ensures order + [cats[i]] == Distinct(cats[..i + 1])
  {
    DistinctExtend(cats, i);
  }

  /** Adding the same category to `order` and to the buckets keeps them in step. */
  lemma KeysAfterNew(order: seq<string>, buckets: map<string, seq<Article>>, c: string, bucket: seq<Article>)
    requires forall k :: k in buckets ==> k in order
    requires forall j :: 0 <= j < |order| ==> order[j] in buckets
    ensures forall k :: k in buckets[c := bucket] ==> k in order + [c]
    ensures forall j :: 0 <= j < |order| + 1 ==> (order + [c])[j] in buckets[c := bucket]
  {
  }

  /** An article of a new category opens a section at the end of `order`. */
  lemma GroupedAfterNew(articles: seq<Article>, i: nat, order: seq<string>, buckets: map<string, seq<Article>>)
    requires i < |articles| && Grouped(articles, i, order, buckets)
    requires articles[i].category !in buckets
    ensures Grouped(articles, i + 1, order + [articles[i].category], buckets[articles[i].category := [articles[i]]])
  {
    var a := articles[i];
    var cats := Categories(articles);
    assert a.category !in order;
    assert cats[i] == a.category;
    OrderAfterNew(cats, i, order);
    CategoryIsNew(articles, i, order);
    BucketsAfterNew(articles, i, buckets);
    TotalSizeAfterNew(order, buckets, a.category, a);
    KeysAfterNew(order, buckets, a.category, [a]);
  }

  /** A category missing from `order` belongs to none of the first `i` articles. */
  lemma CategoryIsNew(articles: seq<Article>, i: nat, order: seq<string>)
    requires i < |articles| && order == Distinct(Categories(articles)[..i])
    requires articles[i].category !in order
    ensures forall j :: 0 <= j < i ==> articles[j].category != articles[i].category
  {
    var cats := Categories(articles);
    assert forall j :: 0 <= j < i ==> cats[..i][j] == articles[j].category;
  }

  /** A new bucket of one article at the end of `order` adds one to the total. */
  lemma TotalSizeAfterNew(order: seq<string>, buckets: map<string, seq<Article>>, c: string, a: Article)
    requires c !in order
    ensures TotalSize(order + [c], buckets[c := [a]]) == TotalSize(order, buckets) + 1
  {
    TotalSizeUnaffected(order, buckets, c, [a]);
    assert (order + [c])[..|order|] == order;
  }

  /** An article of a known category joins its section; `order` is unchanged. */
  lemma GroupedAfterGrow(articles: seq<Article>, i: nat, order: seq<string>, buckets: map<string, seq<Article>>)
    requires i < |articles| && Grouped(articles, i, order, buckets)
    requires articles[i].category in buckets
    ensures var c := articles[i].category;
            Grouped(articles, i + 1, order, buckets[c := buckets[c] + [articles[i]]])
  {
    DistinctExtend(Categories(articles), i);
    BucketsAfterGrow(articles, i, buckets);
    TotalSizeGrow(order, buckets, articles[i].category, articles[i]);
  }

  /** One turn of the grouping loop: create the article's bucket if its category
      is new, then append the article. */
  method AddArticle(articles: seq<Article>, i: nat, order: seq<string>, buckets: map<string, seq<Article>>)
    returns (order': seq<string>, buckets': map<string, seq<Article>>)
    requires i < |articles|
    requires Grouped(articles, i, order, buckets)
    ensures Grouped(articles, i + 1, order', buckets')
  {
    var a := articles[i];
    if a.category !in buckets {
      GroupedAfterNew(articles, i, order, buckets);
      order' := order + [a.category];
      buckets' := buckets[a.category := [a]];
    } else {
      GroupedAfterGrow(articles, i, order, buckets);
      order' := order;
      buckets' := buckets[a.category := buckets[a.category] + [a]];
    }
  }

  /** The loop `for article in articles` filling the `categories` dict. `order` is the
      dict's key order (insertion order), `buckets` its contents. */
  method GroupByCategory(articles: seq<Article>) returns (order: seq<string>, buckets: map<string, seq<Article>>)
    ensures order == Distinct(Categories(articles))
    ensures forall c :: c in buckets <==> c in order
    ensures forall c :: c in buckets ==> buckets[c] == Where(articles, CategoryOf, c) && |buckets[c]| > 0
    ensures TotalSize(order, buckets) == |articles|
  {
    order := [];
    buckets := map[];
    var i := 0;
    while i < |articles|
      invariant 0 <= i <= |articles|
      invariant Grouped(articles, i, order, buckets)
    {
      order, buckets := AddArticle(articles, i, order, buckets);
      i := i + 1;
    }
    assert articles[..i] == articles;
    assert Categories(articles)[..i] == Categories(articles);
  }
}
