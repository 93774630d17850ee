/** Articles and the entry selection of `fetch_feed_articles`. */
module Articles {
  import opened Wrappers
  import opened Seqs

  /** One article. `contentHash` is the MD5 hex digest of title and content;
      `fetchDate` is the clock reading at fetch time. */
  datatype Article = Article(
    title: string,
    link: string,
    content: string,
    source: string,
    category: string,
    published: Option<string>,
    summary: Option<string>,
    contentHash: Option<string>,
    fetchDate: Option<int>)

  function CategoryOf(a: Article): string
  {
    a.category
  }

  /** The category of every article, in order. */
  function Categories(articles: seq<Article>): (cats: seq<string>)
    ensures |cats| == |articles|
    ensures forall i :: 0 <= i < |articles| ==> cats[i] == articles[i].category
  {
    seq(|articles|, i requires 0 <= i < |articles| => articles[i].category)
  }

  /** A raw feed entry as the feed parser hands it over; a missing `link`,
      `title` or `summary` attribute reads as the empty string. */
  datatype FeedEntry = FeedEntry(link: string, title: string, summary: string, published: Option<string>)

  /** One row of the feed registry. */
  datatype FeedConfig = FeedConfig(url: string, maxArticles: nat, category: string)

  /** An entry is kept only when it has both a title and a link. */
  function HasEssentials(e: FeedEntry): bool
  {
    e.title != "" && e.link != ""
  }

  /** The entries `fetch_feed_articles` turns into articles: the first
      `maxArticles` entries of the feed, less those without a title or link. */
  function SelectedEntries(entries: seq<FeedEntry>, maxArticles: nat): (r: seq<FeedEntry>)
    ensures |r| <= maxArticles
    ensures forall i :: 0 <= i < |r| ==> r[i].title != "" && r[i].link != ""
    ensures IsSubsequence(r, Take(entries, maxArticles))
    ensures forall e :: multiset(r)[e] == if HasEssentials(e) then multiset(Take(entries, maxArticles))[e] else 0
  {
    WhereIsSubsequence(Take(entries, maxArticles), HasEssentials, true);
    WhereCounts(Take(entries, maxArticles), HasEssentials, true);
    Where(Take(entries, maxArticles), HasEssentials, true)
  }

  /** The article built from a kept entry. `extract` stands for the page download
      and scraping, `md5` for the hex digest; `now` is the fetch time. */
  function ToArticle(e: FeedEntry, feedName: string, category: string,
                     extract: (string, string) -> string, md5: string -> string, now: int): Article
  {
    var content := extract(e.link, e.summary);
    Article(e.title, e.link, content, feedName, category, e.published, None, Some(md5(e.title + content)), Some(now))
  }

  /** `fetch_feed_articles`: `feed` is `None` when fetching or parsing the feed raised. */
  method FetchFeedArticles(feedName: string, config: FeedConfig, feed: Option<seq<FeedEntry>>,
                           extract: (string, string) -> string, md5: string -> string, now: int)
    returns (articles: seq<Article>)
    ensures feed.None? ==> articles == []
    ensures |articles| <= config.maxArticles
    ensures forall a :: a in articles ==>
              && a.title != "" && a.link != ""
              && a.source == feedName && a.category == config.category
              && a.summary == None && a.contentHash == Some(md5(a.title + a.content))
    ensures feed.Some? ==>
              var kept := SelectedEntries(feed.value, config.maxArticles);
              && |articles| == |kept|
              && forall j :: 0 <= j < |kept| ==>
                   articles[j] == ToArticle(kept[j], feedName, config.category, extract, md5, now)
  {
    if feed.None? {
      return [];
    }
    var entries := Take(feed.value, config.maxArticles);
    articles := ArticlesOf(entries, feedName, config.category, extract, md5, now);
    ToArticleFacts(SelectedEntries(feed.value, config.maxArticles), articles, feedName, config.category, extract, md5, now);
  }

  /** The loop of `fetch_feed_articles` over the (already truncated) entries. */
  method ArticlesOf(entries: seq<FeedEntry>, feedName: string, category: string,
                    extract: (string, string) -> string, md5: string -> string, now: int)
    returns (articles: seq<Article>)
    ensures var kept := Where(entries, HasEssentials, true);
            && |articles| == |kept|
            && forall j :: 0 <= j < |kept| ==> articles[j] == ToArticle(kept[j], feedName, category, extract, md5, now)
  {
    articles := [];
    ghost var kept: seq<FeedEntry> := [];
    var i := 0;
    while i < |entries|
      invariant 0 <= i <= |entries|
      invariant kept == Where(entries[..i], HasEssentials, true)
      invariant |articles| == |kept|
      invariant forall j :: 0 <= j < |kept| ==>
                  articles[j] == ToArticle(kept[j], feedName, category, extract, md5, now)
    {
      var entry := entries[i];
      WhereExtend(entries, HasEssentials, true, i);
      if entry.title != "" && entry.link != "" {
        assert HasEssentials(entry);
        articles := articles + [ToArticle(entry, feedName, category, extract, md5, now)];
        kept := kept + [entry];
      } else {
        assert !HasEssentials(entry);
      }
      i := i + 1;
    }
    assert entries[..i] == entries;
  }

  lemma ToArticleFacts(kept: seq<FeedEntry>, articles: seq<Article>, feedName: string, category: string,
                       extract: (string, string) -> string, md5: string -> string, now: int)
    requires |articles| == |kept|
    requires forall j :: 0 <= j < |kept| ==> kept[j].title != "" && kept[j].link != ""
    requires forall j :: 0 <= j < |kept| ==> articles[j] == ToArticle(kept[j], feedName, category, extract, md5, now)
    ensures forall a :: a in articles ==>
              && a.title != "" && a.link != ""
              && a.source == feedName && a.category == category
              && a.summary == None && a.contentHash == Some(md5(a.title + a.content))
  {
    forall a | a in articles
      ensures && a.title != "" && a.link != ""
              && a.source == feedName && a.category == category
              && a.summary == None && a.contentHash == Some(md5(a.title + a.content))
    {
      var j :| 0 <= j < |articles| && articles[j] == a;
      assert kept[j].title != "";
    }
  }
}
