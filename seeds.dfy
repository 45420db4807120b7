/**
 * Seed URLs: a static list merged with the result of the dynamic search
 * scrape.  The scrape is an input to the model: it either returns a list
 * or raises.
 */
module Seeds {
  import opened SeqUtil
  import opened StringOrder

  /** Outcome of one call of the dynamic seed scrape. */
  datatype Fetched = Raised | Returned(urls: seq<string>)

  /** The hand-picked seeds, in the order they are written. */
  const STATIC_SEEDS: seq<string> := [
    "https://" + "duckduckgogg42xjoc72x3sjasowoarfbgcmvfimaftt6twagswzczad.onion/",
    "http://" + "darkfailenbsdla5mal2mxn2uz66od5vtzd5qozslagrfzachha3f3id.onion/"
  ]

  /**
   * `get_seed_urls()`: `sorted` of the static seeds together with the
   * scraped ones; only the static seeds when the scrape raises.
   */
  function GetSeedUrls(dynamic: Fetched): (r: seq<string>)
    ensures StrictlySorted(r) && NoDups(r)
    ensures forall u :: u in STATIC_SEEDS ==> u in r
    ensures dynamic.Returned? ==> forall u :: u in r <==> u in STATIC_SEEDS || u in dynamic.urls
    ensures dynamic.Raised? ==> forall u :: u in r <==> u in STATIC_SEEDS
  {
    var r := match dynamic
      case Raised => SortedUnique(STATIC_SEEDS)
      case Returned(urls) => SortedUnique(STATIC_SEEDS + urls);
    StrictlySortedNoDups(r);
    r
  }

  /** `get_ahmia_urls()`: the scraped list unchanged, or `[]` when the scrape raises. */
  function GetAhmiaUrls(dynamic: Fetched): (r: seq<string>)
    ensures dynamic.Returned? ==> r == dynamic.urls
    ensures dynamic.Raised? ==> r == []
  {
    match dynamic
    case Raised => []
    case Returned(urls) => urls
  }

  /**
   * The merged list is `sorted(set(...))` whatever algorithm computes it:
   * any strictly ascending list with the same members is the same list.
   */
  lemma SeedUrlsAreSortedUnion(dynamic: Fetched, other: seq<string>)
    requires dynamic.Returned?
    requires StrictlySorted(other)
    requires forall u :: u in other <==> u in STATIC_SEEDS || u in dynamic.urls
    ensures GetSeedUrls(dynamic) == other
  {
    StrictlySortedUnique(GetSeedUrls(dynamic), other);
  }

  /** When the scrape raises, the result is the static list in ascending order. */
  lemma FallbackIsSortedStatic()
    ensures GetSeedUrls(Raised) == [STATIC_SEEDS[1], STATIC_SEEDS[0]]
  {
    var sorted := [STATIC_SEEDS[1], STATIC_SEEDS[0]];
    assert LexLess(STATIC_SEEDS[1], STATIC_SEEDS[0]) by {
      var a, b := STATIC_SEEDS[1], STATIC_SEEDS[0];
      assert a[..7] == "http://" && b[..8] == "https://";
      assert a[0] == b[0] && a[1] == b[1] && a[2] == b[2] && a[3] == b[3];
      assert a[4] == ':' && b[4] == 's';
      assert LexLess(a[4..], b[4..]);
      assert LexLess(a[3..], b[3..]);
      assert LexLess(a[2..], b[2..]);
      assert LexLess(a[1..], b[1..]);
    }
    assert StrictlySorted(sorted);
    StrictlySortedUnique(GetSeedUrls(Raised), sorted);
  }

  /**
   * The crawler's seed list `list(set(get_seed_urls() + get_ahmia_urls()))`;
   * the scrape runs once inside each of the two calls.
   */
  function CrawlerSeeds(first: Fetched, second: Fetched): (r: seq<string>)
    ensures NoDups(r)
    ensures forall u :: u in r <==>
      (u in STATIC_SEEDS || (first.Returned? && u in first.urls) || (second.Returned? && u in second.urls))
  {
    Dedup(GetSeedUrls(first) + GetAhmiaUrls(second))
  }
}
