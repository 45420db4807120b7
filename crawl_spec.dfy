/**
 * The crawl frontier loop as a pure state machine.  One `Pass` is one
 * iteration of the `while` loop of `TorCrawler.crawl` (and of the identical
 * module-level loop of the deep-crawl script); `Run` iterates passes until
 * the queue is empty or the page budget is used up.  The Tor fetch, the
 * link extractor and the page store are the environment `Env`.
 */
module CrawlSpec {
  import opened SeqUtil

  /** Outcome of `session.get(url, timeout=30)`: it raised, or a response came back. */
  datatype Response = Failed | Answered(status: int, text: string)

  /**
   * The external collaborators.  `saveRaises(u)` says whether `save_page`
   * raises for `u`.  Within one run a URL is fetched at most once, so a
   * function of the URL is enough to describe every outcome.
   */
  datatype Env = Env(fetch: string -> Response, extract: string -> seq<string>, saveRaises: string -> bool)

  /**
   * The crawler's state.  `crawled` lists the URLs in the order they were
   * counted (the progress lines printed at each count) and `rotations` the
   * value of `count` at each call of `new_tor_identity`.
   */
  datatype Frontier = Frontier(
    queue: seq<string>, visited: set<string>, offline: set<string>,
    count: nat, success: nat, crawled: seq<string>, rotations: seq<nat>)

  /** State right after construction: the queue holds the seeds. */
  function Initial(seeds: seq<string>): (f: Frontier)
    ensures f.queue == seeds && f.visited == {} && f.offline == {}
    ensures f.count == 0 && f.success == 0 && f.crawled == [] && f.rotations == []
  {
    Frontier(seeds, {}, {}, 0, 0, [], [])
  }

  /** A pass with this response gets past the `continue` to the rotation check. */
  predicate ReachesRotationCheck(r: Response) {
    !(r.Answered? && r.status != 200)
  }

  /** The response is a success (status 200). */
  predicate IsSuccess(r: Response) {
    r.Answered? && r.status == 200
  }

  /**
   * The link loop: each link is appended to the tail of the queue when it is
   * in none of `visited`, the queue (as it grows) and `offline`.
   */
  function Offer(queue: seq<string>, links: seq<string>, visited: set<string>, offline: set<string>): seq<string>
    decreases |links|
  {
    if links == [] then queue
    else
      var link := links[0];
      var q := if link !in visited && link !in queue && link !in offline then queue + [link] else queue;
      Offer(q, links[1..], visited, offline)
  }

  /**
   * The link loop only appends: the old queue is a prefix of the new one, a
   * URL is in the new queue exactly when it was queued already or is a link
   * in neither set, and a queue without repeats stays without repeats.
   */
  lemma {:induction false} OfferFacts(queue: seq<string>, links: seq<string>, visited: set<string>, offline: set<string>)
    ensures var r := Offer(queue, links, visited, offline);
      && |queue| <= |r| && r[..|queue|] == queue
      && (forall u :: u in r <==> u in queue || (u in links && u !in visited && u !in offline))
      && (NoDups(queue) ==> NoDups(r))
    decreases |links|
  {
    if links != [] {
      var link := links[0];
      var q := if link !in visited && link !in queue && link !in offline then queue + [link] else queue;
      assert forall u :: u in links <==> u == link || u in links[1..] by {
        assert links == [link] + links[1..];
      }
      OfferFacts(q, links[1..], visited, offline);
      var r := Offer(q, links[1..], visited, offline);
      assert r[..|queue|] == q[..|queue|];
    }
  }

  /** One iteration of the crawl loop; `refresh` is `refresh_every`. */
  function Pass(f: Frontier, env: Env, refresh: int): (r: Frontier)
    requires f.queue != [] && refresh != 0
    ensures (r.count == f.count && |r.queue| < |f.queue|) || r.count == f.count + 1
  {
    var url := f.queue[0];
    var rest := f.queue[1..];
    if url in f.visited || url in f.offline then f.(queue := rest)
    else
      var c := f.count + 1;
      var crawled := f.crawled + [url];
      var resp := env.fetch(url);
      if !ReachesRotationCheck(resp) then
        f.(queue := rest, offline := f.offline + {url}, count := c, crawled := crawled)
      else
        var g :=
          if resp.Failed? then
            f.(queue := rest, offline := f.offline + {url}, count := c, crawled := crawled)
          else
            var visited := f.visited + {url};
            f.(queue := Offer(rest, env.extract(resp.text), visited, f.offline),
               visited := visited,
               offline := if env.saveRaises(url) then f.offline + {url} else f.offline,
               count := c, success := f.success + 1, crawled := crawled);
        if c % refresh == 0 then g.(rotations := g.rotations + [c]) else g
  }

  /**
   * Each pass pops exactly the head of the queue: the old tail is a prefix of
   * the new queue; a URL already seen is dropped and nothing else changes;
   * the log only grows.
   */
  lemma PassPopsHead(f: Frontier, env: Env, refresh: int)
    requires f.queue != [] && refresh != 0
    ensures var r := Pass(f, env, refresh);
      && |f.queue| - 1 <= |r.queue| && r.queue[..|f.queue| - 1] == f.queue[1..]
      && (f.queue[0] in f.visited || f.queue[0] in f.offline ==> r == f.(queue := f.queue[1..]))
      && f.crawled <= r.crawled
  {
    var url := f.queue[0];
    if url !in f.visited && url !in f.offline && IsSuccess(env.fetch(url)) {
      OfferFacts(f.queue[1..], env.extract(env.fetch(url).text), f.visited + {url}, f.offline);
    }
  }

  /** Measure that every pass decreases while the loop condition holds. */
  function Budget(f: Frontier, maxPages: int): nat {
    if f.count < maxPages then maxPages - f.count else 0
  }

  /** `while queue and count < max_pages: ...` */
  function Run(f: Frontier, env: Env, maxPages: int, refresh: int): Frontier
    requires refresh != 0
    decreases Budget(f, maxPages), |f.queue|
  {
    if f.queue != [] && f.count < maxPages then Run(Pass(f, env, refresh), env, maxPages, refresh)
    else f
  }

  /**
   * The counts at which the identity is rotated, given the URLs in the order
   * they were counted: the k-th counted URL triggers a rotation when its
   * pass reaches the check and `k % refresh == 0`.
   */
  function RotationPoints(crawled: seq<string>, env: Env, refresh: int): seq<nat>
    requires refresh != 0
  {
    if crawled == [] then []
    else
      var n := |crawled|;
      RotationPoints(crawled[..n - 1], env, refresh)
        + (if ReachesRotationCheck(env.fetch(crawled[n - 1])) && n % refresh == 0 then [n] else [])
  }

  /** Rotation happens exactly at the multiples of `refresh` whose pass reaches the check. */
  lemma {:induction false} RotationPointsExact(crawled: seq<string>, env: Env, refresh: int, k: int)
    requires refresh != 0
    ensures k in RotationPoints(crawled, env, refresh) <==>
      1 <= k <= |crawled| && k % refresh == 0 && ReachesRotationCheck(env.fetch(crawled[k - 1]))
  {
    if crawled != [] {
      var n := |crawled|;
      RotationPointsExact(crawled[..n - 1], env, refresh, k);
      if 1 <= k < n { assert crawled[..n - 1][k - 1] == crawled[k - 1]; }
    }
  }

  /** What holds of the state before and after every pass. */
  ghost predicate Inv(f: Frontier, env: Env, refresh: int)
    requires refresh != 0
  {
    && NoDups(f.queue)
    && (forall u :: u in f.queue ==> u !in f.visited && u !in f.offline)
    && NoDups(f.crawled)
    && (forall u :: u in f.crawled <==> u in f.visited || u in f.offline)
    && |f.crawled| == f.count
    && f.success == |f.visited|
    && (forall u :: u in f.visited ==> IsSuccess(env.fetch(u)) && (u in f.offline <==> env.saveRaises(u)))
    && (forall u :: u in f.offline && u !in f.visited ==> !IsSuccess(env.fetch(u)))
    && f.rotations == RotationPoints(f.crawled, env, refresh)
  }

  /** A crawler built from duplicate-free seeds starts in a state satisfying `Inv`. */
  lemma InitialInv(seeds: seq<string>, env: Env, refresh: int)
    requires refresh != 0 && NoDups(seeds)
    ensures Inv(Initial(seeds), env, refresh)
  {
  }

  /** The counted URL is new: it is in no set and not yet in the log. */
  lemma CountedIsNew(f: Frontier, env: Env, refresh: int)
    requires refresh != 0 && f.queue != [] && Inv(f, env, refresh)
    ensures f.queue[0] !in f.visited && f.queue[0] !in f.offline && f.queue[0] !in f.crawled
    ensures f.queue[0] !in f.queue[1..]
    ensures forall u :: u in f.queue[1..] ==> u !in f.visited && u !in f.offline
    ensures NoDups(f.queue[1..])
  {
    assert f.queue == [f.queue[0]] + f.queue[1..];
  }

  /** Appending a new URL to the log keeps the rotation record in step. */
  lemma LogStep(f: Frontier, env: Env, refresh: int, url: string, rotations: seq<nat>)
    requires refresh != 0 && f.rotations == RotationPoints(f.crawled, env, refresh)
    requires var c := |f.crawled| + 1;
      rotations == f.rotations + (if ReachesRotationCheck(env.fetch(url)) && c % refresh == 0 then [c] else [])
    ensures rotations == RotationPoints(f.crawled + [url], env, refresh)
  {
    var crawled := f.crawled + [url];
    assert crawled[..|crawled| - 1] == f.crawled;
  }

  /** The facts about the counted URL's log entry shared by every counted pass. */
  lemma CountedStep(f: Frontier, env: Env, refresh: int)
    requires refresh != 0 && f.queue != [] && Inv(f, env, refresh)
    requires f.queue[0] !in f.visited && f.queue[0] !in f.offline
    ensures var r := Pass(f, env, refresh);
      && r.crawled == f.crawled + [f.queue[0]]
      && NoDups(r.crawled)
      && (forall u :: u in r.crawled <==> u in f.crawled || u == f.queue[0])
      && r.rotations == RotationPoints(r.crawled, env, refresh)
  {
    var url := f.queue[0];
    CountedIsNew(f, env, refresh);
    var r := Pass(f, env, refresh);
    assert r.crawled == f.crawled + [url];
    LogStep(f, env, refresh, url, r.rotations);
  }

  /** A counted pass whose response is not a success keeps `Inv`. */
  lemma OfflinePassInv(f: Frontier, env: Env, refresh: int)
    requires refresh != 0 && f.queue != [] && Inv(f, env, refresh)
    requires f.queue[0] !in f.visited && f.queue[0] !in f.offline && !IsSuccess(env.fetch(f.queue[0]))
    ensures Inv(Pass(f, env, refresh), env, refresh)
  {
    CountedIsNew(f, env, refresh);
    CountedStep(f, env, refresh);
    var r := Pass(f, env, refresh);
    assert r.queue == f.queue[1..] && r.visited == f.visited && r.offline == f.offline + {f.queue[0]};
  }

  /** The state after a counted pass with a 200 response, field by field. */
  lemma SuccessPassFields(f: Frontier, env: Env, refresh: int)
    requires refresh != 0 && f.queue != []
    requires f.queue[0] !in f.visited && f.queue[0] !in f.offline && IsSuccess(env.fetch(f.queue[0]))
    ensures var url := f.queue[0];
      var r := Pass(f, env, refresh);
      && r.visited == f.visited + {url}
      && r.queue == Offer(f.queue[1..], env.extract(env.fetch(url).text), f.visited + {url}, f.offline)
      && r.offline == (if env.saveRaises(url) then f.offline + {url} else f.offline)
      && r.success == f.success + 1
      && r.count == f.count + 1
  {
  }

  /** The queue after a 200 response: no repeats, nothing visited or offline. */
  lemma SuccessQueue(f: Frontier, env: Env, refresh: int)
    requires refresh != 0 && f.queue != [] && Inv(f, env, refresh)
    requires f.queue[0] !in f.visited && f.queue[0] !in f.offline && IsSuccess(env.fetch(f.queue[0]))
    ensures var r := Pass(f, env, refresh);
      NoDups(r.queue) && forall u :: u in r.queue ==> u !in r.visited && u !in r.offline
  {
    CountedIsNew(f, env, refresh);
    SuccessPassFields(f, env, refresh);
    var url := f.queue[0];
    OfferFacts(f.queue[1..], env.extract(env.fetch(url).text), f.visited + {url}, f.offline);
  }

  /** The sets after a 200 response: the log, the successes and the failed saves agree. */
  lemma SuccessSets(f: Frontier, env: Env, refresh: int, url: string)
    requires refresh != 0 && Inv(f, env, refresh)
    requires url !in f.visited && url !in f.offline && IsSuccess(env.fetch(url))
    ensures var visited := f.visited + {url};
      var offline := if env.saveRaises(url) then f.offline + {url} else f.offline;
      var crawled := f.crawled + [url];
      && f.success + 1 == |visited|
      && (forall u :: u in crawled <==> u in visited || u in offline)
      && (forall u :: u in visited ==> IsSuccess(env.fetch(u)) && (u in offline <==> env.saveRaises(u)))
      && (forall u :: u in offline && u !in visited ==> !IsSuccess(env.fetch(u)))
  {
    assert |f.visited + {url}| == |f.visited| + 1;
  }

  /** A counted pass with a 200 response keeps `Inv`. */
  lemma SuccessPassInv(f: Frontier, env: Env, refresh: int)
    requires refresh != 0 && f.queue != [] && Inv(f, env, refresh)
    requires f.queue[0] !in f.visited && f.queue[0] !in f.offline && IsSuccess(env.fetch(f.queue[0]))
    ensures Inv(Pass(f, env, refresh), env, refresh)
  {
    CountedStep(f, env, refresh);
    SuccessQueue(f, env, refresh);
    SuccessPassFields(f, env, refresh);
    SuccessSets(f, env, refresh, f.queue[0]);
  }

  lemma PassInv(f: Frontier, env: Env, refresh: int)
    requires refresh != 0 && f.queue != [] && Inv(f, env, refresh)
    ensures Inv(Pass(f, env, refresh), env, refresh)
  {
    var url := f.queue[0];
    if url in f.visited || url in f.offline {
      CountedIsNew(f, env, refresh);
    } else if IsSuccess(env.fetch(url)) {
      SuccessPassInv(f, env, refresh);
    } else {
      OfflinePassInv(f, env, refresh);
    }
  }

  /** Everything `Run` promises about the state it stops in. */
  lemma {:induction false} RunInv(f: Frontier, env: Env, maxPages: int, refresh: int)
    requires refresh != 0 && Inv(f, env, refresh)
    ensures var g := Run(f, env, maxPages, refresh);
      && Inv(g, env, refresh)
      && (g.queue == [] || g.count >= maxPages)
      && f.count <= g.count
      && (f.count <= maxPages ==> g.count <= maxPages)
      && f.crawled <= g.crawled
    decreases Budget(f, maxPages), |f.queue|
  {
    if f.queue != [] && f.count < maxPages {
      var p := Pass(f, env, refresh);
      PassInv(f, env, refresh);
      PassPopsHead(f, env, refresh);
      RunInv(p, env, maxPages, refresh);
    }
  }

  /** Under `Inv` the URLs counted so far are exactly `visited + offline`, without repeats. */
  lemma InvCount(g: Frontier, env: Env, refresh: int)
    requires refresh != 0 && Inv(g, env, refresh)
    ensures |g.visited + g.offline| == g.count
  {
    NoDupsCard(g.crawled);
    assert Elems(g.crawled) == g.visited + g.offline;
  }

  /** Under `Inv` the rotation record holds exactly the counts `RotationPointsExact` describes. */
  lemma InvRotations(g: Frontier, env: Env, refresh: int)
    requires refresh != 0 && Inv(g, env, refresh)
    ensures forall k :: k in g.rotations <==>
      1 <= k <= g.count && k % refresh == 0 && ReachesRotationCheck(env.fetch(g.crawled[k - 1]))
  {
    forall k ensures k in g.rotations <==>
        1 <= k <= g.count && k % refresh == 0 && ReachesRotationCheck(env.fetch(g.crawled[k - 1]))
    {
      RotationPointsExact(g.crawled, env, refresh, k);
    }
  }

  /**
   * A run from fresh duplicate-free seeds: it stops within the budget (when
   * the budget is not negative), on an empty queue or at the budget; the
   * queue has no duplicates and shares nothing with `visited` or `offline`;
   * every counted URL is in `visited` or `offline`, so their union has
   * `count` elements; `success` counts the 200 responses, the URLs whose
   * save raised are in both sets, and rotations happen exactly at the
   * multiples of `refresh` whose pass reached the check.
   */
  lemma CrawlOutcome(seeds: seq<string>, env: Env, maxPages: int, refresh: int)
    requires refresh != 0 && NoDups(seeds)
    ensures var g := Run(Initial(seeds), env, maxPages, refresh);
      && (g.count <= maxPages || g.count == 0)
      && (g.queue == [] || g.count >= maxPages)
      && NoDups(g.queue)
      && (forall u :: u in g.queue ==> u !in g.visited && u !in g.offline)
      && |g.visited + g.offline| == g.count
      && g.success == |g.visited|
      && (forall u :: u in g.visited && u in g.offline <==> u in g.visited && env.saveRaises(u))
      && (forall u :: u in g.visited ==> IsSuccess(env.fetch(u)))
      && |g.crawled| == g.count
      && (forall k :: k in g.rotations <==>
            1 <= k <= g.count && k % refresh == 0 && ReachesRotationCheck(env.fetch(g.crawled[k - 1])))
  {
    var f := Initial(seeds);
    InitialInv(seeds, env, refresh);
    RunInv(f, env, maxPages, refresh);
    var g := Run(f, env, maxPages, refresh);
    InvCount(g, env, refresh);
    InvRotations(g, env, refresh);
  }

  /**
   * The environment of the end-to-end example: A answers 200 with links to
   * B and C, B answers 404, C answers 200 without links, no save raises.
   */
  function ScenarioEnv(): Env {
    Env(
      u => if u == "A" then Answered(200, "a") else if u == "B" then Answered(404, "") else Answered(200, "c"),
      t => if t == "a" then ["B", "C"] else [],
      u => false)
  }

  lemma ScenarioLinks()
    ensures Offer([], ["B", "C"], {"A"}, {}) == ["B", "C"]
  {
    var last := Offer(["B", "C"], [], {"A"}, {});
    assert last == ["B", "C"];
    assert ["C"][1..] == [];
    assert "C" != "B" && "C" != "A";
    assert Offer(["B"], ["C"], {"A"}, {}) == last;
    assert ["B", "C"][1..] == ["C"] && [] + ["B"] == ["B"];
  }

  lemma ScenarioFirstPass()
    ensures Pass(Initial(["A"]), ScenarioEnv(), 20) == Frontier(["B", "C"], {"A"}, {}, 1, 1, ["A"], [])
  {
    var env := ScenarioEnv();
    var f := Initial(["A"]);
    assert f.queue[0] == "A" && f.queue[1..] == [];
    assert env.fetch("A") == Answered(200, "a");
    assert env.extract("a") == ["B", "C"];
    assert env.saveRaises("A") == false;
    ScenarioLinks();
    assert 1 % 20 != 0;
  }

  lemma ScenarioSecondPass()
    ensures Pass(Frontier(["B", "C"], {"A"}, {}, 1, 1, ["A"], []), ScenarioEnv(), 20)
      == Frontier(["C"], {"A"}, {"B"}, 2, 1, ["A", "B"], [])
  {
    assert ScenarioEnv().fetch("B") == Answered(404, "");
    assert ["B", "C"][1..] == ["C"];
  }

  lemma ScenarioThirdPass()
    ensures Pass(Frontier(["C"], {"A"}, {"B"}, 2, 1, ["A", "B"], []), ScenarioEnv(), 20)
      == Frontier([], {"A", "C"}, {"B"}, 3, 2, ["A", "B", "C"], [])
  {
    var env := ScenarioEnv();
    assert env.fetch("C") == Answered(200, "c");
    assert env.extract("c") == [];
  }

  /**
   * The end-to-end example from seed A with a budget of 3: A and C are
   * visited, B goes offline without counting as a success, the queue ends
   * empty and no rotation happens.
   */
  lemma EndToEndScenario()
    ensures var g := Run(Initial(["A"]), ScenarioEnv(), 3, 20);
      g.visited == {"A", "C"} && g.offline == {"B"} && g.queue == [] && g.count == 3
      && g.success == 2 && g.rotations == [] && g.crawled == ["A", "B", "C"]
  {
    var env := ScenarioEnv();
    var f1 := Frontier(["B", "C"], {"A"}, {}, 1, 1, ["A"], []);
    var f2 := Frontier(["C"], {"A"}, {"B"}, 2, 1, ["A", "B"], []);
    var f3 := Frontier([], {"A", "C"}, {"B"}, 3, 2, ["A", "B", "C"], []);
    ScenarioFirstPass();
    ScenarioSecondPass();
    ScenarioThirdPass();
    assert Run(f3, env, 3, 20) == f3;
    assert Run(f2, env, 3, 20) == f3;
    assert Run(f1, env, 3, 20) == f3;
  }
}
