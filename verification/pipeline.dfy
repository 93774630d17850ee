/** The middle of `main`, once every feed has been fetched: splitting the articles
    into cache hits and a queue to summarize, summarizing the queue batch by batch,
    and writing each batch's summaries back to the cache. */
module Pipeline {
  import opened Wrappers
  import opened Seqs
  import opened PyStr
  import opened Articles
  import opened SmartCache

  /** `cache` is `None` under `--no-cache`. An article is served from the cache when
      caching is on, the article has a content hash and the cache holds a non-empty
      summary for that hash. */
  predicate IsHit(a: Article, cache: Option<Cache>)
  {
    && cache.Some?
    && Truthy(a.contentHash)
    && Truthy(GetSummary(cache.value, a.contentHash.value))
  }

  /** The article after the cache lookup: a hit carries the cached summary. */
  function Resolve(a: Article, cache: Option<Cache>): (r: Article)
    ensures r == a.(summary := r.summary)
    ensures IsHit(a, cache) ==> Truthy(r.summary) && r.summary == GetSummary(cache.value, a.contentHash.value)
    ensures !IsHit(a, cache) ==> r == a
  {
    if IsHit(a, cache) then a.(summary := GetSummary(cache.value, a.contentHash.value)) else a
  }

  /** Positions of the articles that are not served from the cache, in order. */
  function Misses(all: seq<Article>, cache: Option<Cache>): (q: seq<nat>)
    ensures StrictlyIncreasing(q)
    ensures forall j :: 0 <= j < |q| ==> q[j] < |all|
    decreases |all|
  {
    if |all| == 0 then []
    else
      var q := Misses(all[..|all| - 1], cache);
      if IsHit(all[|all| - 1], cache) then q else q + [|all| - 1]
  }

  /** The queue holds exactly the positions of the articles the cache does not serve. */
  lemma {:induction false} MissesAreTheMisses(all: seq<Article>, cache: Option<Cache>)
    ensures forall i :: 0 <= i < |all| ==> (i in Misses(all, cache) <==> !IsHit(all[i], cache))
    decreases |all|
  {
    if |all| > 0 {
      var n := |all| - 1;
      var init := all[..n];
      MissesAreTheMisses(init, cache);
      var q0 := Misses(init, cache);
      assert n !in q0;
      forall i | 0 <= i < n
        ensures i in Misses(all, cache) <==> !IsHit(all[i], cache)
      {
        assert init[i] == all[i];
      }
    }
  }

  /** Looking at one more article appends its position exactly when it misses. */
  lemma MissesStep(all: seq<Article>, cache: Option<Cache>, i: nat)
    requires i < |all|
    ensures Misses(all[..i + 1], cache)
            == if IsHit(all[i], cache) then Misses(all[..i], cache) else Misses(all[..i], cache) + [i]
  {
    assert all[..i + 1][..i] == all[..i];
  }

  /** The body of the cache pass for one article: take the cached summary on a hit,
      report a miss otherwise. */
  method LookUp(a: Article, cache: Option<Cache>) returns (r: Article, queued: bool)
    ensures queued <==> !IsHit(a, cache)
    ensures r == Resolve(a, cache)
  {
    r, queued := a, true;
    if cache.Some? && a.contentHash.Some? && a.contentHash.value != "" {
      var cached := GetSummary(cache.value, a.contentHash.value);
      if cached.Some? && cached.value != "" {
        r, queued := a.(summary := cached), false;
      }
    }
  }

  /** The cache pass of `main`: hits get their cached summary, every other article is
      queued for summarization. The queue holds positions in `all`, because the source
      queues the very article objects that it later prints. */
  method PartitionByCache(all: seq<Article>, cache: Option<Cache>) returns (resolved: seq<Article>, queue: seq<nat>)
    ensures |resolved| == |all|
    ensures forall i :: 0 <= i < |all| ==> resolved[i] == Resolve(all[i], cache)
    ensures queue == Misses(all, cache)
  {
    resolved := [];
    queue := [];
    var i := 0;
    while i < |all|
      invariant 0 <= i <= |all|
      invariant resolved == ResolveAll(all[..i], cache)
      invariant queue == Misses(all[..i], cache)
    {
      var article, queued := LookUp(all[i], cache);
      MissesStep(all, cache, i);
      ResolveAllStep(all, cache, i);
      if queued {
        queue := queue + [i];
      }
      resolved := resolved + [article];
      i := i + 1;
    }
    assert all[..|all|] == all;
  }

  /** Every article after the cache lookup. */
  function ResolveAll(all: seq<Article>, cache: Option<Cache>): (r: seq<Article>)
    ensures |r| == |all|
  {
    seq(|all|, i requires 0 <= i < |all| => Resolve(all[i], cache))
  }

  /** Looking at one more article appends its resolved form. */
  lemma ResolveAllStep(all: seq<Article>, cache: Option<Cache>, i: nat)
    requires i < |all|
    ensures ResolveAll(all[..i + 1], cache) == ResolveAll(all[..i], cache) + [Resolve(all[i], cache)]
  {
    assert all[..i + 1][..i] == all[..i];
  }

  /** The batches `range(0, len(q), size)` cuts `q` into: consecutive slices of
      `size` elements, the last one possibly shorter. */
  function Chunks<T>(q: seq<T>, size: nat): (r: seq<seq<T>>)
    requires size > 0
    ensures Flatten(r) == q
    ensures forall b :: 0 <= b < |r| ==> 0 < |r[b]| <= size
    ensures forall b :: 0 <= b < |r| - 1 ==> |r[b]| == size
    decreases |q|
  {
    if |q| == 0 then []
    else
      var n := if |q| <= size then |q| else size;
      var rest := Chunks(q[n..], size);
      assert ([q[..n]] + rest)[1..] == rest;
      [q[..n]] + rest
  }

  /** The filter in front of `set_summary`: the article has a content hash and a
      non-empty summary. */
  predicate Writable(a: Article)
  {
    Truthy(a.contentHash) && Truthy(a.summary)
  }

  /** One step of the write-back loop. */
  function Record(c: Cache, a: Article, now: int): Cache
  {
    if Writable(a) then SetSummary(c, a.contentHash.value, a.summary.value, a.title, now) else c
  }

  /** The content hashes a sequence of summarized articles writes. */
  function WrittenKeys(batch: seq<Article>): set<string>
  {
    if |batch| == 0 then {}
    else
      var last := batch[|batch| - 1];
      WrittenKeys(batch[..|batch| - 1]) + (if Writable(last) then {last.contentHash.value} else {})
  }

  /** The cache after writing back `batch` in order: the keys it writes are added,
      each holding a non-empty summary stamped `now`; every other entry is kept. */
  function RecordAll(c: Cache, batch: seq<Article>, now: int): (r: Cache)
    ensures r.Keys == c.Keys + WrittenKeys(batch)
    ensures forall k :: k in c && k !in WrittenKeys(batch) ==> r[k] == c[k]
    ensures forall k :: k in WrittenKeys(batch) ==> r[k].summary != "" && r[k].fetchDate == At(now)
    decreases |batch|
  {
    if |batch| == 0 then c
    else Record(RecordAll(c, batch[..|batch| - 1], now), batch[|batch| - 1], now)
  }

  /** The loop `for article in summarized_batch` with its `set_summary` calls. */
  method WriteBatch(c: Cache, batch: seq<Article>, now: int) returns (r: Cache)
    ensures r == RecordAll(c, batch, now)
  {
    r := c;
    var k := 0;
    while k < |batch|
      invariant 0 <= k <= |batch|
      invariant r == RecordAll(c, batch[..k], now)
    {
      assert batch[..k + 1][..k] == batch[..k];
      var article := batch[k];
      if article.contentHash.Some? && article.contentHash.value != ""
         && article.summary.Some? && article.summary.value != "" {
        r := SetSummary(r, article.contentHash.value, article.summary.value, article.title, now);
      }
      k := k + 1;
    }
    assert batch[..|batch|] == batch;
  }

  /** Writing two runs of articles one after the other is writing their concatenation. */
  lemma {:induction false} RecordAllConcat(c: Cache, a: seq<Article>, b: seq<Article>, now: int)
    ensures RecordAll(c, a + b, now) == RecordAll(RecordAll(c, a, now), b, now)
    decreases |b|
  {
    if |b| == 0 {
      assert a + b == a;
    } else {
      ghost var ab := a + b;
      var init := b[..|b| - 1];
      var last := b[|b| - 1];
      ConcatInit(a, b);
      calc {
        RecordAll(c, ab, now);
        Record(RecordAll(c, a + init, now), last, now);
        { RecordAllConcat(c, a, init, now); }
        Record(RecordAll(RecordAll(c, a, now), init, now), last, now);
        RecordAll(RecordAll(c, a, now), b, now);
      }
    }
  }

  /** Writing batch after batch is writing the whole queue at once, whatever the batches. */
  lemma {:induction false} BatchesWriteLikeOneRun(c: Cache, batches: seq<seq<Article>>, now: int)
    ensures WriteBatches(c, batches, now) == RecordAll(c, Flatten(batches), now)
    decreases |batches|
  {
    if |batches| > 0 {
      BatchesWriteLikeOneRun(RecordAll(c, batches[0], now), batches[1..], now);
      RecordAllConcat(c, batches[0], Flatten(batches[1..]), now);
    }
  }

  /** The cache after the batches are written one after the other. */
  function WriteBatches(c: Cache, batches: seq<seq<Article>>, now: int): Cache
    decreases |batches|
  {
    if |batches| == 0 then c else WriteBatches(RecordAll(c, batches[0], now), batches[1..], now)
  }

  /** A summarized article is found in the cache with its own summary unless a later
      article in the batch writes the same hash. */
  lemma {:induction false} LastWriterWins(c: Cache, batch: seq<Article>, now: int, j: nat)
    requires j < |batch| && Writable(batch[j])
    requires forall m :: j < m < |batch| && Writable(batch[m]) ==> batch[m].contentHash != batch[j].contentHash
    ensures GetSummary(RecordAll(c, batch, now), batch[j].contentHash.value) == batch[j].summary
    decreases |batch|
  {
    var last := |batch| - 1;
    var prefix := batch[..last];
    if j < last {
      assert prefix[j] == batch[j];
      assert forall m :: j < m < |prefix| ==> prefix[m] == batch[m];
      LastWriterWins(c, prefix, now, j);
    }
  }

  /** Every writable article of a batch has its hash among the written keys. */
  lemma {:induction false} WrittenKeysContains(batch: seq<Article>, j: nat)
    requires j < |batch| && Writable(batch[j])
    ensures batch[j].contentHash.value in WrittenKeys(batch)
    decreases |batch|
  {
    if j < |batch| - 1 {
      assert batch[..|batch| - 1][j] == batch[j];
      WrittenKeysContains(batch[..|batch| - 1], j);
    }
  }

  /** Every written key is the hash of a writable article of the batch. */
  lemma {:induction false} WrittenKeysAreWritable(batch: seq<Article>, k: string)
    requires k in WrittenKeys(batch)
    ensures exists j :: 0 <= j < |batch| && Writable(batch[j]) && batch[j].contentHash.value == k
    decreases |batch|
  {
    var n := |batch| - 1;
    if Writable(batch[n]) && batch[n].contentHash.value == k {
    } else {
      var init := batch[..n];
      WrittenKeysAreWritable(init, k);
      var j :| 0 <= j < |init| && Writable(init[j]) && init[j].contentHash.value == k;
      assert batch[j] == init[j];
    }
  }

  /** The queued articles as the summarizer hands them back: the `j`-th queued article
      carries `summaryOf(j)`. The summaries come from the OpenAI service, so they are a
      parameter; both summarizing paths give every article a string. */
  function Summarized(all: seq<Article>, queue: seq<nat>, summaryOf: nat -> string): (r: seq<Article>)
    requires forall j :: 0 <= j < |queue| ==> queue[j] < |all|
    ensures |r| == |queue|
    ensures forall j :: 0 <= j < |queue| ==> r[j] == all[queue[j]].(summary := Some(summaryOf(j)))
  {
    seq(|queue|, j requires 0 <= j < |queue| => all[queue[j]].(summary := Some(summaryOf(j))))
  }

  /** The articles after the first `n` queued ones have received their summaries. */
  function Applied(resolved: seq<Article>, queue: seq<nat>, summaryOf: nat -> string, n: nat): (r: seq<Article>)
    requires n <= |queue|
    requires forall j :: 0 <= j < |queue| ==> queue[j] < |resolved|
    ensures |r| == |resolved|
  {
    if n == 0 then resolved
    else
      Applied(resolved, queue, summaryOf, n - 1)[queue[n - 1] := resolved[queue[n - 1]].(summary := Some(summaryOf(n - 1)))]
  }

  /** With distinct positions in the queue, each of the first `n` queued articles holds
      its own summary and every other article is untouched. */
  lemma {:induction false} AppliedFacts(resolved: seq<Article>, queue: seq<nat>, summaryOf: nat -> string, n: nat)
    requires n <= |queue|
    requires StrictlyIncreasing(queue)
    requires forall j :: 0 <= j < |queue| ==> queue[j] < |resolved|
    ensures forall j :: 0 <= j < n ==>
              Applied(resolved, queue, summaryOf, n)[queue[j]] == resolved[queue[j]].(summary := Some(summaryOf(j)))
    ensures forall i :: 0 <= i < |resolved| && i !in queue[..n] ==> Applied(resolved, queue, summaryOf, n)[i] == resolved[i]
  {
    if n > 0 {
      AppliedFacts(resolved, queue, summaryOf, n - 1);
      assert queue[..n] == queue[..n - 1] + [queue[n - 1]];
    }
  }

  /** A queued article past the first `n` has not been touched yet. */
  lemma {:induction false} AppliedNotYet(resolved: seq<Article>, queue: seq<nat>, summaryOf: nat -> string, n: nat, j: nat)
    requires n <= j < |queue|
    requires StrictlyIncreasing(queue)
    requires forall m :: 0 <= m < |queue| ==> queue[m] < |resolved|
    ensures Applied(resolved, queue, summaryOf, n)[queue[j]] == resolved[queue[j]]
  {
    if n > 0 {
      AppliedNotYet(resolved, queue, summaryOf, n - 1, j);
    }
  }

  /** One call of `summarize_articles_batch` on the batch `queue[start..end]`: it
      sets the summary of each article of the batch, in place. */
  method SummarizeOneBatch(resolved: seq<Article>, articles: seq<Article>, queue: seq<nat>,
                           start: nat, end: nat, summaryOf: nat -> string)
    returns (updated: seq<Article>)
    requires start <= end <= |queue|
    requires StrictlyIncreasing(queue)
    requires forall j :: 0 <= j < |queue| ==> queue[j] < |resolved|
    requires articles == Applied(resolved, queue, summaryOf, start)
    ensures updated == Applied(resolved, queue, summaryOf, end)
  {
    updated := articles;
    var j := start;
    while j < end
      invariant start <= j <= end
      invariant updated == Applied(resolved, queue, summaryOf, j)
    {
      AppliedNotYet(resolved, queue, summaryOf, j, j);
      updated := updated[queue[j] := updated[queue[j]].(summary := Some(summaryOf(j)))];
      j := j + 1;
    }
  }

  /** The batch loop of `main` for a positive batch size: the queue is cut into
      `Chunks`, each batch is summarized, and, when caching is on, its articles are
      written back before the next batch starts. */
  method SummarizeQueue(resolved: seq<Article>, queue: seq<nat>, size: nat, summaryOf: nat -> string,
                        cache: Option<Cache>, now: int)
    returns (articles: seq<Article>, written: Option<Cache>)
    requires size > 0
    requires StrictlyIncreasing(queue)
    requires forall j :: 0 <= j < |queue| ==> queue[j] < |resolved|
    ensures |articles| == |resolved|
    ensures forall j :: 0 <= j < |queue| ==> articles[queue[j]] == resolved[queue[j]].(summary := Some(summaryOf(j)))
    ensures forall i :: 0 <= i < |resolved| && i !in queue ==> articles[i] == resolved[i]
    ensures cache.None? ==> written.None?
    ensures cache.Some? ==> written == Some(RecordAll(cache.value, Summarized(resolved, queue, summaryOf), now))
  {
    ghost var all := Summarized(resolved, queue, summaryOf);
    articles := resolved;
    written := cache;
    var start := 0;
    while start < |queue|
      invariant 0 <= start <= |queue|
      invariant articles == Applied(resolved, queue, summaryOf, start)
      invariant cache.None? ==> written.None?
      invariant cache.Some? ==> written == Some(RecordAll(cache.value, all[..start], now))
    {
      var end := BatchEnd(|queue|, start, size);
      articles := SummarizeOneBatch(resolved, articles, queue, start, end, summaryOf);
      if written.Some? {
        AppliedBatch(resolved, queue, summaryOf, start, end);
        var c := WriteBackBatch(resolved, articles, queue, start, end, summaryOf, cache.value, written.value, now);
        written := Some(c);
      }
      start := end;
    }
    assert start == |queue| && queue[..|queue|] == queue;
    AppliedFacts(resolved, queue, summaryOf, |queue|);
    assert all[..|queue|] == all;
  }

  /** The `if cache:` block of the batch loop: the batch's articles, as the batch
      call left them, are written back after those of the earlier batches. */
  method WriteBackBatch(resolved: seq<Article>, articles: seq<Article>, queue: seq<nat>, start: nat, end: nat,
                        summaryOf: nat -> string, base: Cache, c: Cache, now: int)
    returns (r: Cache)
    requires start <= end <= |queue|
    requires |articles| == |resolved|
    requires forall j :: 0 <= j < |queue| ==> queue[j] < |resolved|
    requires forall j :: start <= j < end ==> articles[queue[j]] == resolved[queue[j]].(summary := Some(summaryOf(j)))
    requires c == RecordAll(base, Summarized(resolved, queue, summaryOf)[..start], now)
    ensures r == RecordAll(base, Summarized(resolved, queue, summaryOf)[..end], now)
  {
    ghost var all := Summarized(resolved, queue, summaryOf);
    var summarized := Gather(articles, queue, start, end);
    BatchIsSummarizedSlice(resolved, articles, queue, summaryOf, start, end);
    r := WriteBatch(c, summarized, now);
    RecordAllConcat(base, all[..start], all[start..end], now);
    PrefixJoin(all, start, end);
  }

  /** The articles of one batch, read back after the batch call, are the matching
      slice of `Summarized`. */
  lemma BatchIsSummarizedSlice(resolved: seq<Article>, articles: seq<Article>, queue: seq<nat>,
                               summaryOf: nat -> string, start: nat, end: nat)
    requires start <= end <= |queue|
    requires |articles| == |resolved|
    requires forall j :: 0 <= j < |queue| ==> queue[j] < |resolved|
    requires forall j :: start <= j < end ==> articles[queue[j]] == resolved[queue[j]].(summary := Some(summaryOf(j)))
    ensures Gather(articles, queue, start, end) == Summarized(resolved, queue, summaryOf)[start..end]
  {
    var batch := Gather(articles, queue, start, end);
    var all := Summarized(resolved, queue, summaryOf);
    var slice := all[start..end];
    forall m | 0 <= m < end - start
      ensures batch[m] == slice[m]
    {
      var j := start + m;
      assert batch[m] == articles[queue[j]];
      assert slice[m] == all[j];
    }
    assert |batch| == |slice|;
  }

  /** After the batch call ending at `end`, the articles of the batch hold their summaries. */
  lemma AppliedBatch(resolved: seq<Article>, queue: seq<nat>, summaryOf: nat -> string, start: nat, end: nat)
    requires start <= end <= |queue|
    requires StrictlyIncreasing(queue)
    requires forall j :: 0 <= j < |queue| ==> queue[j] < |resolved|
    ensures forall j :: start <= j < end ==>
              Applied(resolved, queue, summaryOf, end)[queue[j]] == resolved[queue[j]].(summary := Some(summaryOf(j)))
  {
    forall j | start <= j < end
      ensures Applied(resolved, queue, summaryOf, end)[queue[j]] == resolved[queue[j]].(summary := Some(summaryOf(j)))
    {
      AppliedAt(resolved, queue, summaryOf, end, j);
    }
  }

  /** One queued article among the first `n` holds its own summary. */
  lemma AppliedAt(resolved: seq<Article>, queue: seq<nat>, summaryOf: nat -> string, n: nat, j: nat)
    requires j < n <= |queue|
    requires StrictlyIncreasing(queue)
    requires forall j :: 0 <= j < |queue| ==> queue[j] < |resolved|
    ensures Applied(resolved, queue, summaryOf, n)[queue[j]] == resolved[queue[j]].(summary := Some(summaryOf(j)))
  {
    AppliedFacts(resolved, queue, summaryOf, n);
  }

  /** The articles at the queued positions `queue[start..end]`, in queue order. */
  function Gather(articles: seq<Article>, queue: seq<nat>, start: nat, end: nat): (r: seq<Article>)
    requires start <= end <= |queue|
    requires forall j :: 0 <= j < |queue| ==> queue[j] < |articles|
    ensures |r| == end - start
    ensures forall m :: 0 <= m < end - start ==> r[m] == articles[queue[start + m]]
  {
    seq(end - start, m requires 0 <= m < end - start => articles[queue[start + m]])
  }

  /** Where the batch `queue[start:start + size]` ends. */
  function BatchEnd(len: nat, start: nat, size: nat): (end: nat)
    requires start < len && size > 0
    ensures start < end <= len && end - start <= size
  {
    if len - start <= size then len else start + size
  }

  /** The slices `queue[i:i + size]` for `i in range(0, len(queue), size)` are the `Chunks`. */
  method SliceBatches<T>(queue: seq<T>, size: nat) returns (batches: seq<seq<T>>)
    requires size > 0
    ensures batches == Chunks(queue, size)
  {
    batches := [];
    var start := 0;
    while start < |queue|
      invariant 0 <= start <= |queue|
      invariant batches + Chunks(queue[start..], size) == Chunks(queue, size)
    {
      var end := BatchEnd(|queue|, start, size);
      BatchStep(batches, queue, start, end, size);
      batches := batches + [queue[start..end]];
      start := end;
    }
    assert queue[start..] == [];
  }

  /** One turn of the batch loop moves the first remaining chunk onto `batches`. */
  lemma BatchStep<T>(batches: seq<seq<T>>, queue: seq<T>, start: nat, end: nat, size: nat)
    requires size > 0 && start < |queue|
    requires end == BatchEnd(|queue|, start, size)
    ensures batches + Chunks(queue[start..], size) == (batches + [queue[start..end]]) + Chunks(queue[end..], size)
  {
    var rest := queue[start..];
    assert rest[..end - start] == queue[start..end];
    assert rest[end - start..] == queue[end..];
    ConcatAssoc(batches, [queue[start..end]], Chunks(queue[end..], size));
  }

  /** Raised by `range` when the batch size is zero; `main` logs and re-raises it. */
  datatype RunError = ZeroBatchSize

  /** The articles handed to the HTML step and the in-memory cache that is saved. */
  datatype RunState = RunState(articles: seq<Article>, cache: Option<Cache>)

  /** From the fetched articles to the summarized articles and the cache to save.
      `summaryOf(j)` is the summary the summarizer gives the `j`-th queued article and
      `now` the clock reading used for the cache stamps. */
  method Run(all: seq<Article>, cache: Option<Cache>, batchSize: int, summaryOf: nat -> string, now: int)
    returns (r: Result<RunState, RunError>)
    ensures r.Failure? <==> batchSize == 0 && |Misses(all, cache)| > 0
    ensures r.Success? ==> |r.value.articles| == |all| && (r.value.cache.None? <==> cache.None?)
    ensures r.Success? ==> forall i :: 0 <= i < |all| ==> r.value.articles[i] == all[i].(summary := r.value.articles[i].summary)
    ensures r.Success? ==> forall i :: 0 <= i < |all| && IsHit(all[i], cache) ==>
              r.value.articles[i].summary == GetSummary(cache.value, all[i].contentHash.value)
    ensures r.Success? && batchSize > 0 ==>
              var q := Misses(all, cache);
              forall j :: 0 <= j < |q| ==> r.value.articles[q[j]].summary == Some(summaryOf(j))
    ensures r.Success? && batchSize > 0 && cache.Some? ==>
              r.value.cache == Some(RecordAll(cache.value, Summarized(all, Misses(all, cache), summaryOf), now))
    ensures r.Success? && batchSize <= 0 ==>
              r.value.cache == cache && forall i :: 0 <= i < |all| && !IsHit(all[i], cache) ==> r.value.articles[i] == all[i]
  {
    var resolved, queue := PartitionByCache(all, cache);
    if |queue| == 0 {
      return Success(RunState(resolved, cache));
    }
    if batchSize == 0 {
      return Failure(ZeroBatchSize);
    }
    if batchSize < 0 {
      return Success(RunState(resolved, cache));
    }
    var state := SummarizeMisses(all, cache, resolved, queue, batchSize, summaryOf, now);
    return Success(state);
  }

  /** The run past the cache pass, for a positive batch size: every queued article
      gets its summary and, with caching on, the summaries are written back in
      queue order. */
  method SummarizeMisses(all: seq<Article>, cache: Option<Cache>, resolved: seq<Article>, queue: seq<nat>,
                         size: nat, summaryOf: nat -> string, now: int)
    returns (state: RunState)
    requires size > 0
    requires |resolved| == |all| && forall i :: 0 <= i < |all| ==> resolved[i] == Resolve(all[i], cache)
    requires queue == Misses(all, cache)
    ensures |state.articles| == |all| && (state.cache.None? <==> cache.None?)
    ensures forall i :: 0 <= i < |all| ==> state.articles[i] == all[i].(summary := state.articles[i].summary)
    ensures forall i :: 0 <= i < |all| && IsHit(all[i], cache) ==> state.articles[i] == resolved[i]
    ensures forall j :: 0 <= j < |queue| ==> state.articles[queue[j]] == all[queue[j]].(summary := Some(summaryOf(j)))
    ensures cache.Some? ==> state.cache == Some(RecordAll(cache.value, Summarized(all, queue, summaryOf), now))
  {
    var articles, written := SummarizeQueue(resolved, queue, size, summaryOf, cache, now);
    QueuedAreUnresolved(all, cache, resolved, queue, summaryOf);
    OnlySummariesChange(all, cache, resolved, queue, summaryOf, articles);
    state := RunState(articles, written);
  }

  /** The cache pass leaves the queued articles as they were fetched. */
  lemma QueuedAreUnresolved(all: seq<Article>, cache: Option<Cache>, resolved: seq<Article>, queue: seq<nat>,
                            summaryOf: nat -> string)
    requires |resolved| == |all| && forall i :: 0 <= i < |all| ==> resolved[i] == Resolve(all[i], cache)
    requires queue == Misses(all, cache)
    ensures Summarized(resolved, queue, summaryOf) == Summarized(all, queue, summaryOf)
  {
    MissesAreTheMisses(all, cache);
    forall j | 0 <= j < |queue|
      ensures resolved[queue[j]] == all[queue[j]]
    {
      assert queue[j] in queue;
    }
  }

  /** Summarizing the queue changes nothing but summaries, and leaves the hits as resolved. */
  lemma OnlySummariesChange(all: seq<Article>, cache: Option<Cache>, resolved: seq<Article>, queue: seq<nat>,
                            summaryOf: nat -> string, articles: seq<Article>)
    requires |resolved| == |all| && forall i :: 0 <= i < |all| ==> resolved[i] == Resolve(all[i], cache)
    requires queue == Misses(all, cache)
    requires |articles| == |all|
    requires forall j :: 0 <= j < |queue| ==> articles[queue[j]] == resolved[queue[j]].(summary := Some(summaryOf(j)))
    requires forall i :: 0 <= i < |resolved| && i !in queue ==> articles[i] == resolved[i]
    ensures forall i :: 0 <= i < |all| ==> articles[i] == all[i].(summary := articles[i].summary)
    ensures forall i :: 0 <= i < |all| && IsHit(all[i], cache) ==> articles[i] == resolved[i]
  {
    MissesAreTheMisses(all, cache);
    forall i | 0 <= i < |all|
      ensures articles[i] == all[i].(summary := articles[i].summary)
    {
      if i in queue {
        var j :| 0 <= j < |queue| && queue[j] == i;
      }
    }
  }

  /** When every queued article has a content hash and receives a non-empty summary,
      the cache the run leaves behind serves every article of the run. */
  lemma NextRunHitsEverything(all: seq<Article>, c: Cache, summaryOf: nat -> string, now: int)
    requires var q := Misses(all, Some(c));
             forall j :: 0 <= j < |q| ==> Truthy(all[q[j]].contentHash) && summaryOf(j) != ""
    ensures var c' := RecordAll(c, Summarized(all, Misses(all, Some(c)), summaryOf), now);
            forall i :: 0 <= i < |all| ==> IsHit(all[i], Some(c'))
  {
    var q := Misses(all, Some(c));
    MissesAreTheMisses(all, Some(c));
    var batch := Summarized(all, q, summaryOf);
    var c' := RecordAll(c, batch, now);
    forall i | 0 <= i < |all|
      ensures IsHit(all[i], Some(c'))
    {
      if !IsHit(all[i], Some(c)) {
        var j :| 0 <= j < |q| && q[j] == i;
        assert Writable(batch[j]);
        WrittenKeysContains(batch, j);
      }
    }
  }
}
