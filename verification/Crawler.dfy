/** The breadth-first crawl of one votation's pages (crawlVoting in backend/cmd/data-fetch/main.go), over any
    kind of URL and body. */
module Crawler {
  import opened Documents

  /** Fetching and parsing: a page's body or an error, the links in a body, the URLs inside the allowed
      scope, and whether the raw copy of the n-th page can be written. */
  datatype Site<!U, !B> = Site(fetch: U -> Option<B>, links: B -> seq<U>, allowed: U -> bool, save: (U, nat) -> bool) {
    function Fetch(u: U): Option<B> { fetch(u) }
    function Links(body: B): seq<U> { links(body) }
    predicate Allowed(u: U) { allowed(u) }
    predicate Save(u: U, n: nat) { save(u, n) }
  }

  datatype Node<U> = Node(url: U, depth: int)

  /** The page at `u` links to `v`. */
  predicate LinksTo<U(==), B>(site: Site<U, B>, u: U, v: U) {
    site.Fetch(u).Some? && v in site.Links(site.Fetch(u).value)
  }

  /** `u` can be reached from the seeds through allowed pages in at most `d` steps. */
  ghost predicate Within<U(!new), B>(site: Site<U, B>, seeds: seq<U>, u: U, d: nat) {
    site.Allowed(u) &&
    if d == 0 then u in seeds
    else Within(site, seeds, u, d - 1) || exists v :: Within(site, seeds, v, d - 1) && LinksTo(site, v, u)
  }

  /** `d` is the distance of `u` from the seeds. */
  ghost predicate Distance<U(!new), B>(site: Site<U, B>, seeds: seq<U>, u: U, d: nat) {
    Within(site, seeds, u, d) && forall e: nat | e < d :: !Within(site, seeds, u, e)
  }

  lemma {:induction false} WithinMore<U(!new), B>(site: Site<U, B>, seeds: seq<U>, u: U, d: nat, e: nat)
    requires d <= e && Within(site, seeds, u, d)
    ensures Within(site, seeds, u, e)
    decreases e
  {
    if d < e {
      WithinMore(site, seeds, u, d, e - 1);
    }
  }

  /** `u` is fetched at depth at most `d`, or waits in the queue at such a depth. */
  ghost predicate Covered<U>(queue: seq<Node<U>>, depth: map<U, nat>, u: U, d: nat) {
    || (u in depth && depth[u] <= d)
    || exists i :: 0 <= i < |queue| && queue[i].url == u && queue[i].depth <= d
  }

  /** Nothing within reach has been lost: allowed seeds and allowed links of fetched pages are covered. */
  ghost predicate Complete<U(!new), B>(site: Site<U, B>, seeds: seq<U>, maxDepth: int, queue: seq<Node<U>>,
                                       depth: map<U, nat>) {
    && (forall u | u in seeds && site.Allowed(u) && 0 <= maxDepth :: Covered(queue, depth, u, 0))
    && (forall v, u | v in depth && depth[v] + 1 <= maxDepth && LinksTo(site, v, u) && site.Allowed(u) ::
          Covered(queue, depth, u, depth[v] + 1))
  }

  /** The queue is in order of depth, spans at most two depths, and holds what its depths say. */
  ghost predicate Ordered<U(!new), B>(site: Site<U, B>, seeds: seq<U>, queue: seq<Node<U>>) {
    && (forall i | 0 <= i < |queue| :: 0 <= queue[i].depth
          && (site.Allowed(queue[i].url) ==> Within(site, seeds, queue[i].url, queue[i].depth)))
    && (forall i, j | 0 <= i < j < |queue| :: queue[i].depth <= queue[j].depth <= queue[0].depth + 1)
  }

  /** Every fetched page is at its distance, and not further away than anything in the queue. */
  ghost predicate Nearest<U(!new), B>(site: Site<U, B>, seeds: seq<U>, maxDepth: int, queue: seq<Node<U>>,
                                      depth: map<U, nat>) {
    forall u | u in depth :: && Distance(site, seeds, u, depth[u]) && depth[u] <= maxDepth
                             && (queue != [] ==> depth[u] <= queue[0].depth)
  }

  /** What every step of the crawl keeps. */
  ghost predicate Crawling<U(!new), B>(site: Site<U, B>, seeds: seq<U>, maxDepth: int, queue: seq<Node<U>>,
                                       depth: map<U, nat>) {
    && Complete(site, seeds, maxDepth, queue, depth)
    && Ordered(site, seeds, queue)
    && Nearest(site, seeds, maxDepth, queue, depth)
  }

  /** While the queue starts at depth `h`, everything nearer than `h` has been fetched. */
  lemma {:induction false} NearerIsFetched<U(!new), B>(site: Site<U, B>, seeds: seq<U>, maxDepth: int,
                                                       queue: seq<Node<U>>,
                                                       depth: map<U, nat>, u: U, d: nat)
    requires Complete(site, seeds, maxDepth, queue, depth) && Ordered(site, seeds, queue)
    requires d <= maxDepth && (queue != [] ==> d < queue[0].depth)
    requires Within(site, seeds, u, d)
    ensures u in depth && depth[u] <= d
    decreases d
  {
    if d == 0 {
      assert Covered(queue, depth, u, 0);
    } else if Within(site, seeds, u, d - 1) {
      NearerIsFetched(site, seeds, maxDepth, queue, depth, u, d - 1);
    } else {
      var v :| Within(site, seeds, v, d - 1) && LinksTo(site, v, u);
      NearerIsFetched(site, seeds, maxDepth, queue, depth, v, d - 1);
      assert Covered(queue, depth, u, depth[v] + 1);
    }
  }

  // ----- One step of the loop -----

  /** The queue entries for the allowed ones among `links`, in order. */
  function NewNodes<U, B>(site: Site<U, B>, links: seq<U>, depth: int): seq<Node<U>> {
    if links == [] then []
    else NewNodes(site, links[..|links| - 1], depth)
         + if site.Allowed(links[|links| - 1]) then [Node(links[|links| - 1], depth)] else []
  }

  /** `more` holds the allowed ones among `links`, all of them, at depth `d`. */
  ghost predicate HoldsLinks<U(!new), B>(site: Site<U, B>, links: seq<U>, d: int, more: seq<Node<U>>) {
    && (forall i | 0 <= i < |more| :: more[i].depth == d && site.Allowed(more[i].url) && more[i].url in links)
    && (forall u | u in links && site.Allowed(u) :: Node(u, d) in more)
  }

  lemma {:induction false} NewNodesHoldLinks<U(!new), B>(site: Site<U, B>, links: seq<U>, d: int)
    ensures HoldsLinks(site, links, d, NewNodes(site, links, d))
    decreases |links|
  {
    if links != [] {
      NewNodesHoldLinks(site, links[..|links| - 1], d);
    }
  }

  method AppendChildren<U(==, !new), B(!new)>(site: Site<U, B>, queue: seq<Node<U>>, children: seq<U>, depth: int)
    returns (longer: seq<Node<U>>, ghost more: seq<Node<U>>)
    ensures longer == queue + NewNodes(site, children, depth)
    ensures longer == queue + more && HoldsLinks(site, children, depth, more)
  {
    longer, more := queue, [];
    for k := 0 to |children|
      invariant longer == queue + more && more == NewNodes(site, children[..k], depth)
    {
      assert children[..k + 1][..k] == children[..k];
      if !site.Allowed(children[k]) {
        continue;
      }
      longer := longer + [Node(children[k], depth)];
      more := more + [Node(children[k], depth)];
    }
    assert children[..|children|] == children;
    NewNodesHoldLinks(site, children, depth);
  }

  /** Dropping the head of the queue is safe when it is too deep, out of scope, or fetched before. */
  lemma SkipStep<U(!new), B>(site: Site<U, B>, seeds: seq<U>, maxDepth: int, queue: seq<Node<U>>, depth: map<U, nat>)
    requires queue != [] && Crawling(site, seeds, maxDepth, queue, depth)
    requires queue[0].depth > maxDepth || !site.Allowed(queue[0].url) || queue[0].url in depth
    ensures Crawling(site, seeds, maxDepth, queue[1..], depth)
  {
    forall u, d: nat | site.Allowed(u) && d <= maxDepth && Covered(queue, depth, u, d)
      ensures Covered(queue[1..], depth, u, d)
    {
      CoveredLater(site, seeds, maxDepth, queue, depth, u, d);
    }
  }

  lemma CoveredLater<U(!new), B>(site: Site<U, B>, seeds: seq<U>, maxDepth: int, queue: seq<Node<U>>,
                                 depth: map<U, nat>, u: U, d: nat)
    requires queue != [] && Nearest(site, seeds, maxDepth, queue, depth)
    requires queue[0].depth > maxDepth || !site.Allowed(queue[0].url) || queue[0].url in depth
    requires site.Allowed(u) && d <= maxDepth && Covered(queue, depth, u, d)
    ensures Covered(queue[1..], depth, u, d)
  {
    if !(u in depth && depth[u] <= d) {
      var i :| 0 <= i < |queue| && queue[i].url == u && queue[i].depth <= d;
      assert i > 0;
      assert queue[1..][i - 1] == queue[i];
    }
  }

  /** The next page to fetch is at its distance. */
  lemma HeadIsAtDistance<U(!new), B>(site: Site<U, B>, seeds: seq<U>, maxDepth: int, queue: seq<Node<U>>,
                                     depth: map<U, nat>)
    requires queue != [] && Complete(site, seeds, maxDepth, queue, depth) && Ordered(site, seeds, queue)
    requires queue[0].depth <= maxDepth && site.Allowed(queue[0].url) && queue[0].url !in depth
    ensures Distance(site, seeds, queue[0].url, queue[0].depth)
  {
    var u := queue[0].url;
    forall e: nat | e < queue[0].depth
      ensures !Within(site, seeds, u, e)
    {
      if Within(site, seeds, u, e) {
        NearerIsFetched(site, seeds, maxDepth, queue, depth, u, e);
      }
    }
  }

  /** Fetching the head of the queue and appending its links keeps everything in order and nothing lost. */
  lemma FetchStep<U(!new), B>(site: Site<U, B>, seeds: seq<U>, maxDepth: int, queue: seq<Node<U>>, depth: map<U, nat>,
                                         node: Node<U>, body: B, more: seq<Node<U>>)
    requires queue != [] && node == queue[0] && Crawling(site, seeds, maxDepth, queue, depth)
    requires 0 <= node.depth <= maxDepth && site.Allowed(node.url) && node.url !in depth
    requires site.Fetch(node.url) == Some(body)
    requires HoldsLinks(site, site.Links(body), node.depth + 1, more)
    ensures Crawling(site, seeds, maxDepth, queue[1..] + more, depth[node.url := node.depth])
  {
    HeadIsAtDistance(site, seeds, maxDepth, queue, depth);
    OrderedAppend(site, seeds, queue, more, body);
    CompleteAppend(site, seeds, maxDepth, queue, depth, more, body);
    NearestAppend(site, seeds, maxDepth, queue, depth, more);
    hide Within, Distance, Complete, Ordered, Nearest;
  }

  lemma QueueDepths<U(!new), B>(site: Site<U, B>, seeds: seq<U>, queue: seq<Node<U>>, more: seq<Node<U>>)
    requires queue != [] && Ordered(site, seeds, queue)
    requires forall i | 0 <= i < |more| :: more[i].depth == queue[0].depth + 1
    ensures queue[1..] + more != [] ==> queue[0].depth <= (queue[1..] + more)[0].depth
  {
    var q := queue[1..] + more;
    if |queue| > 1 {
      assert q[0] == queue[1];
    }
  }

  lemma NearestAppend<U(!new), B>(site: Site<U, B>, seeds: seq<U>, maxDepth: int, queue: seq<Node<U>>,
                                  depth: map<U, nat>, more: seq<Node<U>>)
    requires queue != [] && Ordered(site, seeds, queue) && Nearest(site, seeds, maxDepth, queue, depth)
    requires 0 <= queue[0].depth <= maxDepth && Distance(site, seeds, queue[0].url, queue[0].depth)
    requires forall i | 0 <= i < |more| :: more[i].depth == queue[0].depth + 1
    ensures Nearest(site, seeds, maxDepth, queue[1..] + more, depth[queue[0].url := queue[0].depth])
  {
    QueueDepths(site, seeds, queue, more);
    hide Within, Distance, Ordered;
  }

  lemma OrderedAppend<U(!new), B>(site: Site<U, B>, seeds: seq<U>, queue: seq<Node<U>>, more: seq<Node<U>>, body: B)
    requires queue != [] && Ordered(site, seeds, queue) && site.Fetch(queue[0].url) == Some(body)
    requires site.Allowed(queue[0].url)
    requires forall i | 0 <= i < |more| ::
               more[i].depth == queue[0].depth + 1 && site.Allowed(more[i].url) && more[i].url in site.Links(body)
    ensures Ordered(site, seeds, queue[1..] + more)
  {
    var q, h := queue[1..] + more, queue[0].depth;
    forall i | 0 <= i < |q|
      ensures 0 <= q[i].depth && (site.Allowed(q[i].url) ==> Within(site, seeds, q[i].url, q[i].depth))
      ensures h <= q[i].depth <= h + 1 && (i >= |queue| - 1 ==> q[i].depth == h + 1)
    {
      if i < |queue| - 1 {
        assert q[i] == queue[i + 1];
      } else {
        assert q[i] == more[i - (|queue| - 1)];
        assert LinksTo(site, queue[0].url, q[i].url);
      }
    }
    forall i, j | 0 <= i < j < |q|
      ensures q[i].depth <= q[j].depth <= q[0].depth + 1
    {
      if j < |queue| - 1 {
        assert q[i] == queue[i + 1] && q[j] == queue[j + 1];
      }
    }
  }

  lemma CompleteAppend<U(!new), B>(site: Site<U, B>, seeds: seq<U>, maxDepth: int, queue: seq<Node<U>>,
                                   depth: map<U, nat>,
                                   more: seq<Node<U>>, body: B)
    requires queue != [] && Complete(site, seeds, maxDepth, queue, depth) && 0 <= queue[0].depth
    requires queue[0].url !in depth && site.Fetch(queue[0].url) == Some(body)
    requires forall u | u in site.Links(body) && site.Allowed(u) :: Node(u, queue[0].depth + 1) in more
    ensures Complete(site, seeds, maxDepth, queue[1..] + more, depth[queue[0].url := queue[0].depth])
  {
    var queue', depth' := queue[1..] + more, depth[queue[0].url := queue[0].depth];
    forall u, d: nat | Covered(queue, depth, u, d)
      ensures Covered(queue', depth', u, d)
    {
      if !(u in depth && depth[u] <= d) {
        var i :| 0 <= i < |queue| && queue[i].url == u && queue[i].depth <= d;
        if i > 0 {
          assert queue'[i - 1] == queue[i];
        }
      }
    }
    forall u | u in site.Links(body) && site.Allowed(u)
      ensures Covered(queue', depth', u, queue[0].depth + 1)
    {
      var k :| 0 <= k < |more| && more[k] == Node(u, queue[0].depth + 1);
      assert queue'[|queue| - 1 + k] == more[k];
    }
    hide Covered;
  }

  function SeedNodes<U>(seeds: seq<U>): (r: seq<Node<U>>)
    ensures |r| == |seeds|
  {
    seq(|seeds|, i requires 0 <= i < |seeds| => Node(seeds[i], 0))
  }

  lemma SeedsStart<U(!new), B>(site: Site<U, B>, seeds: seq<U>, maxDepth: int)
    ensures Crawling(site, seeds, maxDepth, SeedNodes(seeds), map[])
  {
    forall u | u in seeds
      ensures Covered(SeedNodes(seeds), map[], u, 0)
    {
      var i :| 0 <= i < |seeds| && seeds[i] == u;
      assert SeedNodes(seeds)[i].url == u;
    }
  }

  // ----- The crawl -----

  function Cap(maxNodes: int): nat { if maxNodes < 0 then 0 else maxNodes }

  /** What a crawl that did not fail must have fetched: only pages within reach, each at the distance `depth`
      gives; nearer pages before further ones; and all pages within reach unless the cap was used up. */
  ghost predicate Crawled<U(!new), B>(site: Site<U, B>, seeds: seq<U>, maxDepth: int, maxNodes: int, bodies: map<U, B>,
                                      depth: map<U, nat>) {
    && depth.Keys == bodies.Keys
    && (forall u | u in bodies ::
          site.Fetch(u) == Some(bodies[u]) && Distance(site, seeds, u, depth[u]) && depth[u] <= maxDepth)
    && |bodies| <= Cap(maxNodes)
    && (forall u, v, d: nat | u in bodies && v !in bodies && d <= maxDepth && Within(site, seeds, v, d) ::
          depth[u] <= d)
    && (|bodies| < maxNodes ==> forall v, d: nat | d <= maxDepth && Within(site, seeds, v, d) :: v in bodies)
  }

  /** `order` lists the pages of `bodies` once each, in the order they were fetched, nearest first. */
  ghost predicate FetchedInOrder<U(!new), B>(site: Site<U, B>, order: seq<U>, bodies: map<U, B>, depth: map<U, nat>) {
    && |order| == |bodies| && depth.Keys == bodies.Keys
    && (forall u | u in bodies :: site.Fetch(u) == Some(bodies[u]))
    && NearestFirst(order, depth)
  }

  ghost predicate NearestFirst<U(!new)>(order: seq<U>, depth: map<U, nat>) {
    && (forall u :: u in order <==> u in depth)
    && forall i, j | 0 <= i < j < |order| :: order[i] != order[j] && depth[order[i]] <= depth[order[j]]
  }

  lemma FurthestLast<U(!new)>(order: seq<U>, depth: map<U, nat>, u: U, d: nat)
    requires NearestFirst(order, depth) && u !in depth && forall v | v in depth :: depth[v] <= d
    ensures NearestFirst(order + [u], depth[u := d])
  {
  }

  lemma FetchNext<U(!new), B>(site: Site<U, B>, order: seq<U>, bodies: map<U, B>, depth: map<U, nat>, u: U, d: nat)
    requires FetchedInOrder(site, order, bodies, depth) && u !in depth && site.Fetch(u).Some?
    requires forall v | v in depth :: depth[v] <= d
    ensures FetchedInOrder(site, order + [u], bodies[u := site.Fetch(u).value], depth[u := d])
    ensures depth[u := d].Keys == depth.Keys + {u}
  {
    FurthestLast(order, depth, u, d);
    hide NearestFirst;
    OneMoreKey(bodies, u, site.Fetch(u).value);
    OneMoreKey(depth, u, d);
  }

  lemma OneMoreKey<U, V>(m: map<U, V>, u: U, v: V)
    requires u !in m
    ensures m[u := v].Keys == m.Keys + {u} && |m[u := v]| == |m| + 1
  {
  }

  /** Some page within reach cannot be fetched or stored. */
  ghost predicate HasBadPage<U(!new), B>(site: Site<U, B>, seeds: seq<U>, maxDepth: int) {
    exists u, d: nat ::
      d <= maxDepth && Within(site, seeds, u, d) && (site.Fetch(u).None? || exists n: nat :: !site.Save(u, n))
  }

  lemma NotFurther<U(!new), B>(site: Site<U, B>, seeds: seq<U>, maxDepth: int, queue: seq<Node<U>>, depth: map<U, nat>)
    requires queue != [] && Crawling(site, seeds, maxDepth, queue, depth)
    ensures forall v | v in depth :: depth[v] <= queue[0].depth
  {
  }

  method Crawl<U(==, !new), B(!new)>(site: Site<U, B>, seeds: seq<U>, maxDepth: int, maxNodes: int)
    returns (r: Option<map<U, B>>, ghost order: seq<U>, ghost depth: map<U, nat>)
    ensures r.Some? ==> Crawled(site, seeds, maxDepth, maxNodes, r.value, depth)
    ensures r.Some? ==> FetchedInOrder(site, order, r.value, depth)
    ensures r.None? ==> HasBadPage(site, seeds, maxDepth)
  {
    hide Within, Distance, Crawling, Crawled, FetchedInOrder, HasBadPage, HoldsLinks, NewNodes, SeedNodes;
    SeedsStart(site, seeds, maxDepth);
    var queue := SeedNodes(seeds);
    var seen: set<U> := {};
    var bodies: map<U, B> := map[];
    var nodeCount := 0;
    order, depth := [], map[];
    NothingFetched(site, order, bodies, depth);
    while queue != []
      invariant Crawling(site, seeds, maxDepth, queue, depth) && FetchedInOrder(site, order, bodies, depth)
      invariant seen == depth.Keys && nodeCount == |order|
      invariant nodeCount == 0 || nodeCount <= maxNodes
      decreases maxNodes - nodeCount, |queue|
    {
      var node := queue[0];
      if node.depth > maxDepth || !site.Allowed(node.url) || node.url in seen {
        SkipStep(site, seeds, maxDepth, queue, depth);
        queue := queue[1..];
        continue;
      }
      HeadIsWithin(site, seeds, maxDepth, queue, depth, nodeCount + 1);
      seen := seen + {node.url};
      nodeCount := nodeCount + 1;
      if nodeCount > maxNodes {
        CappedCrawl(site, seeds, maxDepth, maxNodes, queue, order, bodies, depth);
        return Some(bodies), order, depth;
      }
      var body := site.Fetch(node.url);
      if body.None? || !site.Save(node.url, nodeCount) {
        return None, order, depth;
      }
      ghost var before, more := queue, [];
      queue, more := AppendChildren(site, queue[1..], site.Links(body.value), node.depth + 1);
      FetchStep(site, seeds, maxDepth, before, depth, node, body.value, more);
      NotFurther(site, seeds, maxDepth, before, depth);
      FetchNext(site, order, bodies, depth, node.url, node.depth);
      bodies := bodies[node.url := body.value];
      order := order + [node.url];
      depth := depth[node.url := node.depth];
    }
    FinishedCrawl(site, seeds, maxDepth, maxNodes, order, bodies, depth);
    return Some(bodies), order, depth;
  }

  lemma NothingFetched<U(!new), B>(site: Site<U, B>, order: seq<U>, bodies: map<U, B>, depth: map<U, nat>)
    requires order == [] && bodies == map[] && depth == map[]
    ensures FetchedInOrder(site, order, bodies, depth)
  {
  }

  lemma HeadIsWithin<U(!new), B>(site: Site<U, B>, seeds: seq<U>, maxDepth: int, queue: seq<Node<U>>,
                                 depth: map<U, nat>, n: nat)
    requires queue != [] && Crawling(site, seeds, maxDepth, queue, depth) && site.Allowed(queue[0].url)
    ensures 0 <= queue[0].depth && Within(site, seeds, queue[0].url, queue[0].depth)
    ensures queue[0].depth <= maxDepth && (site.Fetch(queue[0].url).None? || !site.Save(queue[0].url, n)) ==>
              HasBadPage(site, seeds, maxDepth)
  {
  }

  /** The cap stops the crawl in front of a page that is further away than, or as far as, all fetched ones. */
  lemma CappedCrawl<U(!new), B>(site: Site<U, B>, seeds: seq<U>, maxDepth: int, maxNodes: int, queue: seq<Node<U>>,
                                order: seq<U>, bodies: map<U, B>, depth: map<U, nat>)
    requires queue != [] && Crawling(site, seeds, maxDepth, queue, depth) && FetchedInOrder(site, order, bodies, depth)
    requires (|order| == 0 || |order| <= maxNodes) && |order| + 1 > maxNodes
    ensures Crawled(site, seeds, maxDepth, maxNodes, bodies, depth)
  {
    forall u, v, d: nat | u in bodies && v !in bodies && d <= maxDepth && Within(site, seeds, v, d)
      ensures depth[u] <= d
    {
      if d < queue[0].depth {
        NearerIsFetched(site, seeds, maxDepth, queue, depth, v, d);
      }
    }
    hide Within, Distance, Complete, Ordered;
  }

  /** An emptied queue means that everything within reach has been fetched. */
  lemma FinishedCrawl<U(!new), B>(site: Site<U, B>, seeds: seq<U>, maxDepth: int, maxNodes: int,
                                  order: seq<U>, bodies: map<U, B>, depth: map<U, nat>)
    requires Crawling(site, seeds, maxDepth, [], depth) && FetchedInOrder(site, order, bodies, depth)
    requires |order| == 0 || |order| <= maxNodes
    ensures Crawled(site, seeds, maxDepth, maxNodes, bodies, depth)
    ensures forall v, d: nat | d <= maxDepth && Within(site, seeds, v, d) :: v in bodies
  {
    forall v, d: nat | d <= maxDepth && Within(site, seeds, v, d)
      ensures v in bodies
    {
      NearerIsFetched(site, seeds, maxDepth, [], depth, v, d);
    }
    hide Within, Distance, Complete, Ordered;
  }

  /** `pages` holds everything within reach. */
  ghost predicate HoldsReach<U(!new), B>(site: Site<U, B>, seeds: seq<U>, maxDepth: int, pages: set<U>) {
    forall v, d: nat | d <= maxDepth && Within(site, seeds, v, d) :: v in pages
  }

  /** A crawl that does not fail fetches everything within reach exactly when the cap has room for it. */
  lemma CrawlIsCompleteIff<U(!new), B>(site: Site<U, B>, seeds: seq<U>, maxDepth: int, maxNodes: int,
                                       bodies: map<U, B>, depth: map<U, nat>)
    requires Crawled(site, seeds, maxDepth, maxNodes, bodies, depth)
    ensures HoldsReach(site, seeds, maxDepth, bodies.Keys)
       <==> exists pages: set<U> :: |pages| <= Cap(maxNodes) && HoldsReach(site, seeds, maxDepth, pages)
  {
    hide Within;
    if HoldsReach(site, seeds, maxDepth, bodies.Keys) {
      assert |bodies.Keys| == |bodies|;
    } else if pages: set<U> :| |pages| <= Cap(maxNodes) && HoldsReach(site, seeds, maxDepth, pages) {
      var v, d: nat :| d <= maxDepth && Within(site, seeds, v, d) && v !in bodies;
      FetchedIsWithin(site, seeds, maxDepth, maxNodes, bodies, depth, pages);
      OneMoreIsLarger(bodies.Keys, v, pages);
    }
  }

  lemma FetchedIsWithin<U(!new), B>(site: Site<U, B>, seeds: seq<U>, maxDepth: int, maxNodes: int,
                                    bodies: map<U, B>, depth: map<U, nat>, pages: set<U>)
    requires Crawled(site, seeds, maxDepth, maxNodes, bodies, depth) && HoldsReach(site, seeds, maxDepth, pages)
    ensures bodies.Keys <= pages
  {
    forall u | u in bodies
      ensures u in pages
    {
      assert Distance(site, seeds, u, depth[u]);
    }
  }

  lemma OneMoreIsLarger<T>(a: set<T>, x: T, b: set<T>)
    requires a <= b && x in b && x !in a
    ensures |a| < |b|
  {
    assert b == (a + {x}) + (b - (a + {x}));
  }
}
