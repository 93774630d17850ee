/** `SmartCache`: summaries keyed by content hash, with a one-week expiry applied on load. */
module SmartCache {
  import opened Wrappers
  import opened Seqs

  /** Entries older than this many days are dropped when the cache is loaded. */
  const CacheExpiryDays: nat := 7
  const MicrosPerDay: nat := 86_400_000_000

  /** Longest title prefix kept in an entry. */
  const TitleLimit: nat := 100

  /** The `fetch_date` field of a stored entry: absent, present but not an ISO date,
      or a clock reading in microseconds. */
  datatype FetchDate = Missing | Unparsable | At(micros: int)

  datatype CacheEntry = CacheEntry(summary: string, fetchDate: FetchDate, title: string)

  type Cache = map<string, CacheEntry>

  /** `datetime.now() - timedelta(days=CACHE_EXPIRY_DAYS)`. */
  function Cutoff(now: int): (cutoff: int)
    ensures now - cutoff == 7 * 86_400_000_000
  {
    now - CacheExpiryDays * MicrosPerDay
  }

  /** An entry the load filter keeps: it has a fetch date strictly after the cutoff. */
  predicate Unexpired(e: CacheEntry, cutoff: int)
  {
    e.fetchDate.At? && e.fetchDate.micros > cutoff
  }

  /** Some stored fetch date cannot be parsed, so the load raises part-way. */
  predicate HasUnparsableDate(stored: map<string, CacheEntry>)
  {
    exists k :: k in stored && stored[k].fetchDate.Unparsable?
  }

  /** `load_cache`. `stored` is `None` when the file is missing or is not a JSON object.
      An unparsable date raises inside the `try`, so the whole cache is lost. */
  function LoadCache(stored: Option<map<string, CacheEntry>>, cutoff: int): (c: Cache)
    ensures stored.None? ==> c == map[]
    ensures stored.Some? && HasUnparsableDate(stored.value) ==> c == map[]
    ensures stored.Some? && !HasUnparsableDate(stored.value) ==>
              forall k :: k in c <==> k in stored.value && Unexpired(stored.value[k], cutoff)
    ensures forall k :: k in c ==> stored.Some? && k in stored.value && c[k] == stored.value[k]
  {
    match stored
    case None => map[]
    case Some(raw) =>
      if HasUnparsableDate(raw) then map[]
      else map k | k in raw && raw[k].fetchDate.At? && raw[k].fetchDate.micros > cutoff :: raw[k]
  }

  /** `get_summary`: the stored summary for `contentHash`, or `None`. */
  function GetSummary(c: Cache, contentHash: string): (r: Option<string>)
    ensures r.None? <==> contentHash !in c
    ensures r.Some? ==> r.value == c[contentHash].summary
  {
    if contentHash in c then Some(c[contentHash].summary) else None
  }

  /** `set_summary`: overwrite the entry for `contentHash`, stamped `now`, with the
      title cut to its first hundred characters. */
  function SetSummary(c: Cache, contentHash: string, summary: string, title: string, now: int): (r: Cache)
    ensures r.Keys == c.Keys + {contentHash}
    ensures GetSummary(r, contentHash) == Some(summary)
    ensures r[contentHash].fetchDate == At(now)
    ensures |r[contentHash].title| <= 100 && r[contentHash].title <= title
    ensures |title| <= 100 ==> r[contentHash].title == title
    ensures forall k :: k != contentHash ==> GetSummary(r, k) == GetSummary(c, k)
    ensures forall k :: k != contentHash && k in c ==> r[k] == c[k]
  {
    c[contentHash := CacheEntry(summary, At(now), Take(title, TitleLimit))]
  }

  /** Loading what was loaded changes nothing. */
  lemma LoadIsIdempotent(stored: Option<map<string, CacheEntry>>, cutoff: int)
    ensures LoadCache(Some(LoadCache(stored, cutoff)), cutoff) == LoadCache(stored, cutoff)
  {
    var c := LoadCache(stored, cutoff);
    assert !HasUnparsableDate(c) by {
      forall k | k in c ensures !c[k].fetchDate.Unparsable? {
        assert Unexpired(stored.value[k], cutoff);
      }
    }
    var c2 := LoadCache(Some(c), cutoff);
    assert c2.Keys == c.Keys by {
      forall k | k in c ensures k in c2 {
        assert Unexpired(stored.value[k], cutoff);
      }
    }
  }

  /** A summary written at `now` survives a reload exactly when `now` is after the reload's cutoff. */
  lemma {:induction false} WrittenEntrySurvivesReload(c: Cache, contentHash: string, summary: string, title: string,
                                    now: int, cutoff: int)
    requires !HasUnparsableDate(c)
    ensures var reloaded := LoadCache(Some(SetSummary(c, contentHash, summary, title, now)), cutoff);
            GetSummary(reloaded, contentHash) == if now > cutoff then Some(summary) else None
  {
    var c' := SetSummary(c, contentHash, summary, title, now);
    assert !HasUnparsableDate(c') by {
      forall k | k in c' ensures !c'[k].fetchDate.Unparsable? {
        if k != contentHash {
          assert c'[k] == c[k];
        }
      }
    }
  }

  /** A summary written at `written` is still served after a reload at `later`
      exactly while it is less than seven days old. */
  lemma KeptForAWeek(c: Cache, contentHash: string, summary: string, title: string, written: int, later: int)
    requires !HasUnparsableDate(c)
    ensures var reloaded := LoadCache(Some(SetSummary(c, contentHash, summary, title, written)), Cutoff(later));
            GetSummary(reloaded, contentHash) == if later - written < 7 * 86_400_000_000 then Some(summary) else None
  {
    WrittenEntrySurvivesReload(c, contentHash, summary, title, written, Cutoff(later));
  }
}
