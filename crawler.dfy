/**
 * The `TorCrawler` class: its constructor merges and deduplicates the seeds,
 * and `Crawl` runs the frontier loop in place on the object's fields.  The
 * Tor fetch, the link extractor and the failures of `save_page` are the
 * environment `Env`; the extractor the source calls is `ExtractOnionLinks`.
 */
module Crawler {
  import opened SeqUtil
  import opened Seeds
  import opened CrawlSpec

  /**
   * The link loop of one pass: appends each link that is in none of
   * `visited`, the queue as it grows, and `offline`.
   */
  method OfferLinks(queue: seq<string>, links: seq<string>, visited: set<string>, offline: set<string>)
    returns (q: seq<string>)
    ensures q == Offer(queue, links, visited, offline)
  {
    q := queue;
    var i := 0;
    while i < |links|
      invariant 0 <= i <= |links|
      invariant Offer(q, links[i..], visited, offline) == Offer(queue, links, visited, offline)
    {
      assert links[i..][1..] == links[i + 1..];
      var link := links[i];
      if link !in visited && link !in q && link !in offline {
        q := q + [link];
      }
      i := i + 1;
    }
  }

  class TorCrawler {
    const maxPages: int
    const refreshEvery: int
    const seeds: seq<string>
    var queue: seq<string>
    var visited: set<string>
    var offline: set<string>
    var success: nat
    var count: nat
    /** The URLs in the order they were counted. */
    var crawled: seq<string>
    /** The value of `count` at each call of `new_tor_identity`. */
    var rotations: seq<nat>

    /** The crawler's fields as a frontier state. */
    function State(): Frontier
      reads this
    {
      Frontier(queue, visited, offline, count, success, crawled, rotations)
    }

    /**
     * `TorCrawler(max_pages, refresh_every)`: the seeds are the deduplicated
     * union of the two scrapes, and the queue starts as a copy of them.
     */
    constructor (maxPages: int, refreshEvery: int, first: Fetched, second: Fetched)
      ensures this.maxPages == maxPages && this.refreshEvery == refreshEvery
      ensures seeds == CrawlerSeeds(first, second)
      ensures State() == Initial(seeds)
    {
      this.maxPages := maxPages;
      this.refreshEvery := refreshEvery;
      seeds := CrawlerSeeds(first, second);
      queue := CrawlerSeeds(first, second);
      visited := {};
      offline := {};
      success := 0;
      count := 0;
      crawled := [];
      rotations := [];
    }

    /**
     * One iteration of the `while` loop of `crawl()`; an early `return` is
     * the loop's `continue`.
     */
    method CrawlPass(env: Env)
      requires queue != [] && refreshEvery != 0
      modifies this
      ensures State() == Pass(old(State()), env, refreshEvery)
    {
      var url := queue[0];
      queue := queue[1..];
      if url in visited || url in offline {
        return;
      }
      count := count + 1;
      crawled := crawled + [url];
      var r := env.fetch(url);
      if r.Answered? && r.status != 200 {
        offline := offline + {url};
        return;
      }
      if r.Failed? {
        offline := offline + {url};
      } else {
        var html := r.text;
        visited := visited + {url};
        success := success + 1;
        queue := OfferLinks(queue, env.extract(html), visited, offline);
        if env.saveRaises(url) {
          offline := offline + {url};
        }
      }
      if count % refreshEvery == 0 {
        rotations := rotations + [count];
      }
    }

    /**
     * `crawl()`: the loop leaves the fields in the state `Run` describes, it
     * stops on an empty queue or a used-up budget, and it keeps `Inv`.
     */
    method Crawl(env: Env)
      requires refreshEvery != 0
      modifies this
      ensures State() == Run(old(State()), env, maxPages, refreshEvery)
      ensures queue == [] || count >= maxPages
      ensures Inv(old(State()), env, refreshEvery) ==> Inv(State(), env, refreshEvery)
    {
      ghost var start := State();
      while queue != [] && count < maxPages
        invariant Run(State(), env, maxPages, refreshEvery) == Run(start, env, maxPages, refreshEvery)
        decreases Budget(State(), maxPages), |queue|
      {
        CrawlPass(env);
      }
      RunInvOf(start, env, maxPages, refreshEvery);
    }
  }

  /** `RunInv` for a state that may or may not satisfy `Inv`. */
  lemma RunInvOf(f: Frontier, env: Env, maxPages: int, refresh: int)
    requires refresh != 0
    ensures Inv(f, env, refresh) ==> Inv(Run(f, env, maxPages, refresh), env, refresh)
  {
    if Inv(f, env, refresh) { RunInv(f, env, maxPages, refresh); }
  }

  /**
   * A crawler fresh from its constructor ends its crawl in a state where
   * everything `CrawlOutcome` states holds: with these seeds the queue never
   * repeats a URL and `|visited + offline| == count`.
   */
  lemma FreshCrawlOutcome(first: Fetched, second: Fetched, env: Env, maxPages: int, refresh: int)
    requires refresh != 0
    ensures var g := Run(Initial(CrawlerSeeds(first, second)), env, maxPages, refresh);
      && (g.count <= maxPages || g.count == 0)
      && NoDups(g.queue)
      && |g.visited + g.offline| == g.count
      && g.success == |g.visited|
  {
    CrawlOutcome(CrawlerSeeds(first, second), env, maxPages, refresh);
  }
}
