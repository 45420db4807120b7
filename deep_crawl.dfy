/**
 * The deep-crawl script: the same frontier loop as `TorCrawler.crawl`, run
 * at module level on local variables with fixed constants.  The result is
 * the final value of those variables.
 */
module DeepCrawl {
  import opened SeqUtil
  import opened Seeds
  import opened CrawlSpec
  import Crawler

  const MAX_PAGES: int := 200
  const REFRESH_CIRCUIT_EVERY: int := 20

  /**
   * The script's main loop over its module-level variables, started from
   * the seed list; it ends in the state `Run` describes.
   */
  method MainLoop(seeds: seq<string>, env: Env) returns (final: Frontier)
    ensures final == Run(Initial(seeds), env, MAX_PAGES, REFRESH_CIRCUIT_EVERY)
  {
    var queue := seeds;
    var visited: set<string> := {};
    var offline: set<string> := {};
    var count: nat := 0;
    var success: nat := 0;
    var crawled: seq<string> := [];
    var rotations: seq<nat> := [];
    while queue != [] && count < MAX_PAGES
      invariant Run(Frontier(queue, visited, offline, count, success, crawled, rotations), env, MAX_PAGES, REFRESH_CIRCUIT_EVERY)
        == Run(Initial(seeds), env, MAX_PAGES, REFRESH_CIRCUIT_EVERY)
      decreases MAX_PAGES - count, |queue|
    {
      ghost var before := Frontier(queue, visited, offline, count, success, crawled, rotations);
      var url := queue[0];
      queue := queue[1..];
      if url in visited || url in offline {
        continue;
      }
      count := count + 1;
      crawled := crawled + [url];
      var r := env.fetch(url);
      if r.Answered? && r.status != 200 {
        offline := offline + {url};
        assert Frontier(queue, visited, offline, count, success, crawled, rotations)
          == Pass(before, env, REFRESH_CIRCUIT_EVERY);
        continue;
      }
      if r.Failed? {
        offline := offline + {url};
      } else {
        var html := r.text;
        visited := visited + {url};
        success := success + 1;
        var newLinks := env.extract(html);
        queue := Crawler.OfferLinks(queue, newLinks, visited, offline);
        if env.saveRaises(url) {
          offline := offline + {url};
        }
      }
      if count % REFRESH_CIRCUIT_EVERY == 0 {
        rotations := rotations + [count];
      }
      assert Frontier(queue, visited, offline, count, success, crawled, rotations)
        == Pass(before, env, REFRESH_CIRCUIT_EVERY);
    }
    final := Frontier(queue, visited, offline, count, success, crawled, rotations);
  }

  /**
   * The script from seed setup to loop exit.  It ends within the budget,
   * with a duplicate-free queue disjoint from `visited` and `offline`,
   * `count` distinct URLs in their union, `success` equal to the number of
   * visited URLs, and a circuit refresh exactly at the multiples of 20 whose
   * pass reached the check.
   */
  method DeepCrawl(first: Fetched, second: Fetched, env: Env) returns (final: Frontier)
    ensures final == Run(Initial(CrawlerSeeds(first, second)), env, MAX_PAGES, REFRESH_CIRCUIT_EVERY)
    ensures final.count <= MAX_PAGES
    ensures final.queue == [] || final.count == MAX_PAGES
    ensures NoDups(final.queue)
    ensures forall u :: u in final.queue ==> u !in final.visited && u !in final.offline
    ensures |final.visited + final.offline| == final.count
    ensures final.success == |final.visited|
    ensures |final.crawled| == final.count
    ensures forall k :: k in final.rotations <==>
      1 <= k <= final.count && k % REFRESH_CIRCUIT_EVERY == 0
      && ReachesRotationCheck(env.fetch(final.crawled[k - 1]))
  {
    var seeds := CrawlerSeeds(first, second);
    final := MainLoop(seeds, env);
    CrawlOutcome(seeds, env, MAX_PAGES, REFRESH_CIRCUIT_EVERY);
  }
}
