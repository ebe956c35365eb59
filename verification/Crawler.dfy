/** The bounded crawl over explicit seed URLs, with the fetcher, URL checks and page parser as parameters. */
module Crawler {
  import opened Basics

  type Url = string

  datatype Page = Page(finalUrl: Url, bytes: nat, hasText: bool, links: seq<Url>)

  datatype Options = Options(
    seeds: seq<Url>, maxDepth: nat, maxPages: nat, maxPageBytes: nat, maxTotalBytes: nat)

  /** `fetch` is also given the number of earlier attempts, so that the same URL may answer differently over time. */
  datatype Web = Web(
    validate: Url -> Option<Url>, canonical: Url -> string, allowed: Url -> bool,
    fetch: (Url, nat, nat) -> Option<Page>)

  /** The fetcher's byte contract: a body is cut to the given limit. */
  ghost predicate RespectsLimits(w: Web) {
    forall url, limit: nat, n: nat :: w.fetch(url, limit, n).Some? ==> w.fetch(url, limit, n).value.bytes <= limit
  }

  datatype Item = Item(url: Url, depth: nat)

  /** An evidence record, by its final URL and the depth it was found at. */
  datatype Found = Found(url: Url, depth: nat)

  datatype Crawl = Crawl(
    queue: seq<Item>, seen: set<string>, evidence: seq<Found>, requested: seq<Url>,
    queued: nat, fetched: nat, failed: nat, dropped: nat, bytes: nat)

  predicate DistinctUnder(urls: seq<Url>, canonical: Url -> string) {
    forall i, j :: 0 <= i < j < |urls| ==> canonical(urls[i]) != canonical(urls[j])
  }

  function Queue(c: Crawl): (urls: seq<Url>)
    ensures |urls| == |c.queue| && forall i :: 0 <= i < |urls| ==> urls[i] == c.queue[i].url
  {
    seq(|c.queue|, i requires 0 <= i < |c.queue| => c.queue[i].url)
  }

  function Finals(c: Crawl): (urls: seq<Url>)
    ensures |urls| == |c.evidence| && forall i :: 0 <= i < |urls| ==> urls[i] == c.evidence[i].url
  {
    seq(|c.evidence|, i requires 0 <= i < |c.evidence| => c.evidence[i].url)
  }

  /** No URL of one list is canonically the same as the given one. */
  ghost predicate Unlike(url: Url, urls: seq<Url>, canonical: Url -> string) {
    forall u :: u in urls ==> canonical(u) != canonical(url)
  }

  ghost predicate AllSeen(urls: seq<Url>, seen: set<string>, canonical: Url -> string) {
    forall u :: u in urls ==> canonical(u) in seen
  }

  /**
   No canonical URL is requested or queued twice, evidence repeats none and comes from allowed hosts, and nothing
   queued is evidence already.
   */
  ghost predicate Tidy(requested: seq<Url>, queue: seq<Url>, finals: seq<Url>, seen: set<string>, w: Web) {
    && DistinctUnder(requested + queue, w.canonical) && DistinctUnder(finals, w.canonical)
    && AllSeen(requested + queue, seen, w.canonical) && AllSeen(finals, seen, w.canonical)
    && (forall u :: u in queue ==> Unlike(u, finals, w.canonical))
    && (forall u :: u in finals ==> w.allowed(u))
  }

  lemma AddDistinct(urls: seq<Url>, url: Url, canonical: Url -> string)
    requires DistinctUnder(urls, canonical) && Unlike(url, urls, canonical)
    ensures DistinctUnder(urls + [url], canonical)
  {
  }

  lemma QueueingKeeps(requested: seq<Url>, queue: seq<Url>, finals: seq<Url>, seen: set<string>, w: Web, url: Url)
    requires Tidy(requested, queue, finals, seen, w) && w.canonical(url) !in seen
    ensures Tidy(requested, queue + [url], finals, seen + {w.canonical(url)}, w)
  {
    AddDistinct(requested + queue, url, w.canonical);
    assert requested + (queue + [url]) == (requested + queue) + [url];
  }

  /** The queue's head is requested; it is then unlike everything queued or recorded. */
  lemma TakingKeeps(requested: seq<Url>, queue: seq<Url>, finals: seq<Url>, seen: set<string>, w: Web)
    requires Tidy(requested, queue, finals, seen, w) && queue != []
    ensures Tidy(requested + [queue[0]], queue[1..], finals, seen, w) && w.canonical(queue[0]) in seen
    ensures Unlike(queue[0], queue[1..], w.canonical) && Unlike(queue[0], finals, w.canonical)
  {
    var all, n := requested + queue, |requested|;
    assert (requested + [queue[0]]) + queue[1..] == all;
    assert all[n] == queue[0] && queue[0] in all;
    forall i | 0 <= i < |queue[1..]| ensures w.canonical(queue[1..][i]) != w.canonical(queue[0]) {
      assert all[n + 1 + i] == queue[1..][i];
    }
  }

  /** A page unlike everything queued or recorded may become evidence. */
  lemma RecordingKeeps(requested: seq<Url>, queue: seq<Url>, finals: seq<Url>, seen: set<string>, w: Web, url: Url)
    requires Tidy(requested, queue, finals, seen, w) && w.allowed(url)
    requires Unlike(url, queue, w.canonical) && Unlike(url, finals, w.canonical)
    ensures Tidy(requested, queue, finals, seen + {w.canonical(url)}, w)
    ensures Tidy(requested, queue, finals + [url], seen + {w.canonical(url)}, w)
  {
    AddDistinct(finals, url, w.canonical);
  }

  /** The counters: every queued URL is fetched, failed or still queued; every fetched page is evidence or dropped. */
  ghost predicate Accounted(c: Crawl) {
    && c.queued == c.fetched + c.failed + |c.queue|
    && c.fetched == |c.evidence| + c.dropped
    && |c.requested| == c.fetched + c.failed
  }

  ghost predicate WithinLimits(c: Crawl, o: Options) {
    && c.fetched <= o.maxPages && c.bytes <= o.maxTotalBytes
    && (forall i :: 0 <= i < |c.queue| ==> c.queue[i].depth <= o.maxDepth)
    && (forall i :: 0 <= i < |c.evidence| ==> c.evidence[i].depth <= o.maxDepth)
  }

  ghost predicate Inv(c: Crawl, o: Options, w: Web) {
    Tidy(c.requested, Queue(c), Finals(c), c.seen, w) && Accounted(c) && WithinLimits(c, o)
  }

  /** The URL is invalid, not allowed, or its canonical form has been met. */
  predicate Met(url: Url, seen: set<string>, w: Web) {
    var normalized := w.validate(url);
    normalized.Some? && w.allowed(normalized.value) ==> w.canonical(normalized.value) in seen
  }

  /** Queueing only adds: everything else stays. */
  predicate Grows(c: Crawl, r: Crawl) {
    && c.seen <= r.seen && c.queue <= r.queue
    && r == c.(seen := r.seen, queue := r.queue, queued := r.queued)
  }

  /** `_validated_queue_item`, and the append that follows it. */
  method Enqueue(c: Crawl, url: Url, depth: nat, ghost o: Options, w: Web) returns (r: Crawl)
    requires Inv(c, o, w) && depth <= o.maxDepth
    ensures Inv(r, o, w) && Grows(c, r) && Met(url, r.seen, w)
    ensures r.queue == c.queue + (if Met(url, c.seen, w) then [] else [Item(w.validate(url).value, depth)])
    ensures r.seen == c.seen + (if Met(url, c.seen, w) then {} else {w.canonical(w.validate(url).value)})
  {
    var normalized := w.validate(url);
    if normalized.None? {
      return c;
    }
    var canonical := w.canonical(normalized.value);
    if canonical in c.seen || !w.allowed(normalized.value) {
      return c;
    }
    r := c.(queue := c.queue + [Item(normalized.value, depth)], seen := c.seen + {canonical}, queued := c.queued + 1);
    QueueingKeeps(c.requested, Queue(c), Finals(c), c.seen, w, normalized.value);
    assert Queue(r) == Queue(c) + [normalized.value] && Finals(r) == Finals(c);
  }

  /** A canonical URL met is that of a URL requested or queued. */
  ghost predicate Traced(s: string, c: Crawl, w: Web) {
    exists u :: u in c.requested + Queue(c) && w.canonical(u) == s
  }

  lemma QueueGrows(c: Crawl, r: Crawl, w: Web)
    requires c.requested <= r.requested && c.requested + Queue(c) <= r.requested + Queue(r)
    ensures forall s :: Traced(s, c, w) ==> Traced(s, r, w)
  {
    forall s | Traced(s, c, w) ensures Traced(s, r, w) {
      var u :| u in c.requested + Queue(c) && w.canonical(u) == s;
      assert u in r.requested + Queue(r);
    }
  }

  lemma GrowingIsTraced(c: Crawl, r: Crawl, w: Web)
    requires c.requested == r.requested && c.queue <= r.queue
    ensures forall s :: Traced(s, c, w) ==> Traced(s, r, w)
  {
    assert Queue(r)[..|c.queue|] == Queue(c);
    assert c.requested + Queue(c) <= r.requested + Queue(r);
    QueueGrows(c, r, w);
  }

  lemma LastIsTraced(c: Crawl, w: Web)
    requires c.queue != []
    ensures Traced(w.canonical(c.queue[|c.queue| - 1].url), c, w)
  {
    var all := c.requested + Queue(c);
    assert all[|all| - 1] == c.queue[|c.queue| - 1].url && all[|all| - 1] in all;
  }

  lemma EnqueuedIsTraced(c: Crawl, r: Crawl, w: Web)
    requires c.requested == r.requested && c.queue <= r.queue
    ensures forall s :: Traced(s, c, w) ==> Traced(s, r, w)
    ensures r.queue != [] ==> Traced(w.canonical(r.queue[|r.queue| - 1].url), r, w)
  {
    GrowingIsTraced(c, r, w);
    if r.queue != [] {
      LastIsTraced(r, w);
    }
  }

  /** The URL is what one of the listed ones is normalized to. */
  ghost predicate Listed(url: Url, urls: seq<Url>, w: Web) {
    exists i :: 0 <= i < |urls| && w.validate(urls[i]) == Some(url)
  }

  /** The link loop of one page. */
  method EnqueueAll(c: Crawl, urls: seq<Url>, depth: nat, ghost o: Options, w: Web) returns (r: Crawl)
    requires Inv(c, o, w) && depth <= o.maxDepth
    ensures Inv(r, o, w) && Grows(c, r) && forall i :: 0 <= i < |urls| ==> Met(urls[i], r.seen, w)
    ensures forall s :: s in r.seen ==> s in c.seen || Traced(s, r, w)
    ensures forall k :: |c.queue| <= k < |r.queue| ==> r.queue[k].depth == depth && Listed(r.queue[k].url, urls, w)
  {
    r := c;
    for i := 0 to |urls|
      invariant Inv(r, o, w) && Grows(c, r) && forall k :: 0 <= k < i ==> Met(urls[k], r.seen, w)
      invariant forall s :: s in r.seen ==> s in c.seen || Traced(s, r, w)
      invariant forall k :: |c.queue| <= k < |r.queue| ==> r.queue[k].depth == depth && Listed(r.queue[k].url, urls, w)
    {
      ghost var before := r;
      r := Enqueue(r, urls[i], depth, o, w);
      assert !Met(urls[i], before.seen, w) ==> Listed(w.validate(urls[i]).value, urls, w);
      EnqueuedIsTraced(before, r, w);
    }
  }

  /** Taking the queue's head, before its answer is known. */
  function Take(c: Crawl): Crawl
    requires c.queue != []
  {
    c.(queue := c.queue[1..], requested := c.requested + [c.queue[0].url])
  }

  lemma TakeKeeps(c: Crawl, w: Web)
    requires c.queue != [] && Tidy(c.requested, Queue(c), Finals(c), c.seen, w)
    ensures var r := Take(c);
      && Tidy(r.requested, Queue(r), Finals(r), r.seen, w) && w.canonical(c.queue[0].url) in r.seen
      && Unlike(c.queue[0].url, Queue(r), w.canonical) && Unlike(c.queue[0].url, Finals(r), w.canonical)
  {
    TakingKeeps(c.requested, Queue(c), Finals(c), c.seen, w);
    assert Queue(Take(c)) == Queue(c)[1..] && Finals(Take(c)) == Finals(c);
  }

  /** The page is allowed and no redirect to a page already met. */
  predicate Acceptable(c: Crawl, w: Web, item: Item, page: Page) {
    w.allowed(page.finalUrl)
    && (w.canonical(page.finalUrl) in c.seen ==> w.canonical(page.finalUrl) == w.canonical(item.url))
  }

  /** A fetched page becomes evidence, or is dropped as a duplicate, a stray or an empty page. */
  method Record(c: Crawl, item: Item, page: Page, ghost o: Options, w: Web) returns (r: Crawl, kept: bool)
    requires Tidy(c.requested, Queue(c), Finals(c), c.seen, w) && WithinLimits(c, o) && item.depth <= o.maxDepth
    requires w.canonical(item.url) in c.seen
    requires Unlike(item.url, Queue(c), w.canonical) && Unlike(item.url, Finals(c), w.canonical)
    ensures Tidy(r.requested, Queue(r), Finals(r), r.seen, w) && WithinLimits(r, o)
    ensures |r.evidence| + r.dropped == |c.evidence| + c.dropped + 1
    ensures r == c.(seen := r.seen, evidence := r.evidence, dropped := r.dropped)
    ensures kept <==>
      w.allowed(page.finalUrl)
      && (w.canonical(page.finalUrl) in c.seen ==> w.canonical(page.finalUrl) == w.canonical(item.url))
    ensures r.evidence == c.evidence + if kept && page.hasText then [Found(page.finalUrl, item.depth)] else []
    ensures r.seen == c.seen + if kept then {w.canonical(page.finalUrl)} else {}
  {
    var final := w.canonical(page.finalUrl);
    if (final in c.seen && final != w.canonical(item.url)) || !w.allowed(page.finalUrl) {
      return c.(dropped := c.dropped + 1), false;
    }
    assert Unlike(page.finalUrl, Queue(c), w.canonical) && Unlike(page.finalUrl, Finals(c), w.canonical) by {
      assert AllSeen(c.requested + Queue(c), c.seen, w.canonical);
    }
    RecordingKeeps(c.requested, Queue(c), Finals(c), c.seen, w, page.finalUrl);
    kept := true;
    if page.hasText {
      r := c.(seen := c.seen + {final}, evidence := c.evidence + [Found(page.finalUrl, item.depth)]);
      assert Queue(r) == Queue(c) && Finals(r) == Finals(c) + [page.finalUrl];
    } else {
      r := c.(seen := c.seen + {final}, dropped := c.dropped + 1);
      assert Queue(r) == Queue(c) && Finals(r) == Finals(c);
    }
  }

  /** The byte budget of the next fetch. */
  function Limit(c: Crawl, o: Options): (limit: nat)
    requires c.bytes <= o.maxTotalBytes
    ensures limit <= o.maxPageBytes && c.bytes + limit <= o.maxTotalBytes
    ensures limit == o.maxPageBytes || c.bytes + limit == o.maxTotalBytes
  {
    var remaining := o.maxTotalBytes - c.bytes;
    if o.maxPageBytes <= remaining then o.maxPageBytes else remaining
  }

  /** What a successful fetch does: counters, evidence, and, above the depth limit, every link of the page is met. */
  ghost predicate Fetched(c: Crawl, r: Crawl, o: Options, w: Web, item: Item, page: Page) {
    && r.fetched == c.fetched + 1 && r.bytes == c.bytes + page.bytes && r.failed == c.failed
    && r.evidence == c.evidence
                     + (if Acceptable(c, w, item, page) && page.hasText then [Found(page.finalUrl, item.depth)] else [])
    && (Acceptable(c, w, item, page) && item.depth < o.maxDepth ==>
          forall i :: 0 <= i < |page.links| ==> Met(page.links[i], r.seen, w))
  }

  /** The answer to the next fetch. */
  function Answer(c: Crawl, o: Options, w: Web): Option<Page>
    requires c.queue != [] && c.bytes <= o.maxTotalBytes
  {
    w.fetch(c.queue[0].url, Limit(c, o), |c.requested|)
  }

  /** The next fetch brings a page that is accepted. */
  predicate Accepts(c: Crawl, o: Options, w: Web, page: Page) {
    c.queue != [] && c.bytes <= o.maxTotalBytes && Answer(c, o, w) == Some(page) && Acceptable(c, w, c.queue[0], page)
  }

  /** One pass of the crawl loop, from one state to the next. */
  ghost predicate Pass(c: Crawl, r: Crawl, o: Options, w: Web) {
    && c.queue != [] && c.fetched < o.maxPages && c.bytes < o.maxTotalBytes
    && r.requested == c.requested + [c.queue[0].url] && c.seen <= r.seen && c.queue[1..] <= r.queue
    && (Answer(c, o, w).None? ==> r.failed == c.failed + 1 && r.queue == c.queue[1..] && r.evidence == c.evidence)
    && (Answer(c, o, w).Some? ==> Fetched(c, r, o, w, c.queue[0], Answer(c, o, w).value))
    && (forall s :: s in r.seen ==>
          s in c.seen || Traced(s, r, w) || exists page :: Accepts(c, o, w, page) && s == w.canonical(page.finalUrl))
    && (forall k :: |c.queue| - 1 <= k < |r.queue| ==> LinkedFrom(r.queue[k], c, o, w))
  }

  /** The item is a link of the page accepted in this pass, one level further from the seeds. */
  ghost predicate LinkedFrom(item: Item, c: Crawl, o: Options, w: Web) {
    && c.queue != [] && item.depth == c.queue[0].depth + 1 <= o.maxDepth
    && exists page :: Accepts(c, o, w, page) && Listed(item.url, page.links, w)
  }

  method Visit(c: Crawl, o: Options, w: Web) returns (r: Crawl)
    requires Inv(c, o, w) && RespectsLimits(w) && c.queue != [] && c.fetched < o.maxPages && c.bytes < o.maxTotalBytes
    ensures Inv(r, o, w) && Pass(c, r, o, w)
  {
    TakeKeeps(c, w);
    var item, taken := c.queue[0], Take(c);
    var answer := w.fetch(item.url, Limit(c, o), |c.requested|);
    if answer.None? {
      r := taken.(failed := c.failed + 1);
      assert Queue(r) == Queue(taken) && Finals(r) == Finals(taken);
      return;
    }
    var page := answer.value;
    var counted := taken.(fetched := c.fetched + 1, bytes := c.bytes + page.bytes);
    assert Queue(counted) == Queue(taken) && Finals(counted) == Finals(taken);
    var kept;
    r, kept := Record(counted, item, page, o, w);
    assert kept ==> Accepts(c, o, w, page);
    if kept && item.depth < o.maxDepth {
      r := EnqueueAll(r, page.links, item.depth + 1, o, w);
    }
  }

  lemma NothingIsTidy(requested: seq<Url>, queue: seq<Url>, finals: seq<Url>, w: Web)
    requires requested == [] && queue == [] && finals == []
    ensures Tidy(requested, queue, finals, {}, w)
  {
  }

  method Empty(ghost o: Options, ghost w: Web) returns (c: Crawl)
    ensures Inv(c, o, w) && c.seen == {} && c.requested == [] && c.queue == []
  {
    c := Crawl([], {}, [], [], 0, 0, 0, 0, 0);
    NothingIsTidy(c.requested, Queue(c), Finals(c), w);
  }

  /** What a run of the loop went through: the state before each pass, each followed by the next and then by `c`. */
  ghost predicate Trace(passes: seq<Crawl>, c: Crawl, o: Options, w: Web) {
    && |passes| == |c.requested|
    && (forall k :: 0 <= k < |passes| ==> passes[k].queue != [] && c.requested[k] == passes[k].queue[0].url)
    && forall k :: 0 <= k < |passes| ==> Pass(passes[k], Next(passes, c, k), o, w)
  }

  function Next(passes: seq<Crawl>, c: Crawl, k: nat): Crawl {
    if k + 1 < |passes| then passes[k + 1] else c
  }

  /** Every link of every accepted page above the depth limit is met. */
  ghost predicate Closed(passes: seq<Crawl>, c: Crawl, o: Options, w: Web)
    requires Trace(passes, c, o, w)
  {
    forall k, page, i ::
      && 0 <= k < |passes| && Accepts(passes[k], o, w, page) && passes[k].queue[0].depth < o.maxDepth
      && 0 <= i < |page.links|
      ==> Met(page.links[i], c.seen, w)
  }

  /** Whatever was met was requested, is queued, or is the final URL of an accepted page. */
  ghost predicate Explained(passes: seq<Crawl>, c: Crawl, o: Options, w: Web)
    requires Trace(passes, c, o, w)
  {
    forall s :: s in c.seen ==>
      Traced(s, c, w) || exists k, page ::
        0 <= k < |passes| && Accepts(passes[k], o, w, page) && s == w.canonical(page.finalUrl)
  }

  lemma PassExtends(passes: seq<Crawl>, c: Crawl, r: Crawl, o: Options, w: Web)
    requires Trace(passes, c, o, w) && Pass(c, r, o, w)
    ensures Trace(passes + [c], r, o, w)
  {
    var all := passes + [c];
    forall k | 0 <= k < |all| ensures Pass(all[k], Next(all, r, k), o, w) {
      if k < |passes| {
        assert all[k] == passes[k] && Next(all, r, k) == Next(passes, c, k);
      } else {
        assert all[k] == c && Next(all, r, k) == r;
      }
    }
  }

  // --- how far from the seeds ---

  ghost predicate IsSeed(item: Item, o: Options, w: Web) {
    item.depth == 0 && Listed(item.url, o.seeds, w)
  }

  /** The item is a seed, or a link of a page accepted in one of the passes. */
  ghost predicate Sourced(item: Item, passes: seq<Crawl>, o: Options, w: Web) {
    IsSeed(item, o, w) || exists n :: 0 <= n < |passes| && LinkedFrom(item, passes[n], o, w)
  }

  /** Everything requested is sourced by the passes before it, and everything queued by those so far. */
  ghost predicate Rooted(passes: seq<Crawl>, c: Crawl, o: Options, w: Web) {
    && (forall k :: 0 <= k < |passes| ==> passes[k].queue != [] && Sourced(passes[k].queue[0], passes[..k], o, w))
    && (forall k :: 0 <= k < |c.queue| ==> Sourced(c.queue[k], passes, o, w))
  }

  lemma SourcedLater(item: Item, passes: seq<Crawl>, c: Crawl, o: Options, w: Web)
    requires Sourced(item, passes, o, w)
    ensures Sourced(item, passes + [c], o, w)
  {
    if !IsSeed(item, o, w) {
      var n :| 0 <= n < |passes| && LinkedFrom(item, passes[n], o, w);
      assert (passes + [c])[n] == passes[n];
    }
  }

  lemma PassKeepsRooted(passes: seq<Crawl>, c: Crawl, r: Crawl, o: Options, w: Web)
    requires Rooted(passes, c, o, w) && Pass(c, r, o, w)
    ensures Rooted(passes + [c], r, o, w)
  {
    var all := passes + [c];
    forall k | 0 <= k < |all| ensures all[k].queue != [] && Sourced(all[k].queue[0], all[..k], o, w) {
      assert all[..k] == passes[..k];
      assert passes[..|passes|] == passes;
    }
    forall k | 0 <= k < |r.queue| ensures Sourced(r.queue[k], all, o, w) {
      if k < |c.queue| - 1 {
        assert r.queue[k] == c.queue[1..][k] == c.queue[k + 1];
        SourcedLater(c.queue[k + 1], passes, c, o, w);
      } else {
        assert LinkedFrom(r.queue[k], c, o, w) && all[|passes|] == c;
      }
    }
  }

  /** Each pass of the chain requested a link of a page accepted in the one before; the first requested a seed. */
  ghost predicate IsChain(chain: seq<nat>, passes: seq<Crawl>, o: Options, w: Web) {
    && chain != [] && (forall i :: 0 <= i < |chain| ==> chain[i] < |passes| && passes[chain[i]].queue != [])
    && IsSeed(passes[chain[0]].queue[0], o, w)
    && forall i :: 0 <= i < |chain| - 1 ==> LinkedFrom(passes[chain[i + 1]].queue[0], passes[chain[i]], o, w)
  }

  lemma ExtendChain(chain: seq<nat>, passes: seq<Crawl>, k: nat, o: Options, w: Web)
    requires IsChain(chain, passes, o, w) && k < |passes| && passes[k].queue != []
    requires LinkedFrom(passes[k].queue[0], passes[chain[|chain| - 1]], o, w)
    ensures IsChain(chain + [k], passes, o, w)
  {
  }

  lemma RequestedFrom(passes: seq<Crawl>, c: Crawl, o: Options, w: Web, k: nat) returns (n: nat)
    requires Rooted(passes, c, o, w) && k < |passes| && !IsSeed(passes[k].queue[0], o, w)
    ensures n < k && LinkedFrom(passes[k].queue[0], passes[n], o, w)
  {
    assert Sourced(passes[k].queue[0], passes[..k], o, w);
    n :| n < k && LinkedFrom(passes[k].queue[0], passes[..k][n], o, w);
  }

  lemma {:induction false} ChainTo(passes: seq<Crawl>, c: Crawl, o: Options, w: Web, k: nat) returns (chain: seq<nat>)
    requires Rooted(passes, c, o, w) && k < |passes|
    ensures IsChain(chain, passes, o, w) && chain[|chain| - 1] == k
    ensures |chain| == passes[k].queue[0].depth + 1 <= o.maxDepth + 1
    decreases k
  {
    if IsSeed(passes[k].queue[0], o, w) {
      chain := [k];
    } else {
      var n := RequestedFrom(passes, c, o, w, k);
      var front := ChainTo(passes, c, o, w, n);
      ExtendChain(front, passes, k, o, w);
      chain := front + [k];
    }
  }

  /** Nothing is requested that is farther than the depth limit from the seeds. */
  lemma RequestedIsNear(passes: seq<Crawl>, c: Crawl, o: Options, w: Web, k: nat) returns (chain: seq<nat>)
    requires Trace(passes, c, o, w) && Rooted(passes, c, o, w) && k < |passes|
    ensures IsChain(chain, passes, o, w) && |chain| <= o.maxDepth + 1
    ensures c.requested[k] == passes[chain[|chain| - 1]].queue[0].url
  {
    chain := ChainTo(passes, c, o, w, k);
  }

  lemma MetStays(url: Url, before: set<string>, later: set<string>, w: Web)
    requires Met(url, before, w) && before <= later
    ensures Met(url, later, w)
  {
  }

  lemma PassKeepsClosed(passes: seq<Crawl>, c: Crawl, r: Crawl, o: Options, w: Web)
    requires Trace(passes, c, o, w) && Pass(c, r, o, w) && Closed(passes, c, o, w)
    ensures Trace(passes + [c], r, o, w) && Closed(passes + [c], r, o, w)
  {
    PassExtends(passes, c, r, o, w);
    var all := passes + [c];
    forall k, page, i
      | 0 <= k < |all| && Accepts(all[k], o, w, page) && all[k].queue[0].depth < o.maxDepth && 0 <= i < |page.links|
      ensures Met(page.links[i], r.seen, w)
    {
      if k < |passes| {
        MetStays(page.links[i], c.seen, r.seen, w);
      }
    }
  }

  lemma TakingIsTraced(c: Crawl, r: Crawl, w: Web)
    requires c.queue != [] && r.requested == c.requested + [c.queue[0].url] && c.queue[1..] <= r.queue
    ensures c.requested + Queue(c) <= r.requested + Queue(r)
  {
    var n, before, later := |c.requested|, c.requested + Queue(c), r.requested + Queue(r);
    forall i | 0 <= i < |before| ensures before[i] == later[i] {
      if n < i {
        assert r.queue[i - n - 1] == c.queue[1..][i - n - 1];
      }
    }
  }

  lemma PassKeepsTraced(c: Crawl, r: Crawl, o: Options, w: Web)
    requires Pass(c, r, o, w)
    ensures forall s :: Traced(s, c, w) ==> Traced(s, r, w)
  {
    TakingIsTraced(c, r, w);
    QueueGrows(c, r, w);
  }

  lemma PassKeepsExplained(passes: seq<Crawl>, c: Crawl, r: Crawl, o: Options, w: Web)
    requires Trace(passes, c, o, w) && Pass(c, r, o, w) && Explained(passes, c, o, w)
    ensures Trace(passes + [c], r, o, w) && Explained(passes + [c], r, o, w)
  {
    PassExtends(passes, c, r, o, w);
    PassKeepsTraced(c, r, o, w);
    var all := passes + [c];
    forall s | s in r.seen && !Traced(s, r, w)
      ensures exists k, page :: 0 <= k < |all| && Accepts(all[k], o, w, page) && s == w.canonical(page.finalUrl)
    {
      if s in c.seen {
        var k, page :| 0 <= k < |passes| && Accepts(passes[k], o, w, page) && s == w.canonical(page.finalUrl);
        assert all[k] == passes[k];
      } else {
        var page :| Accepts(c, o, w, page) && s == w.canonical(page.finalUrl);
        assert all[|passes|] == c;
      }
    }
  }

  /**
   When the queue has run empty, the crawl is closed under links: every valid and allowed link of an accepted page above
   the depth limit was itself requested, or is the final URL of an accepted page.
   */
  lemma EmptyQueueIsClosed(passes: seq<Crawl>, c: Crawl, o: Options, w: Web, k: nat, page: Page, i: nat)
    requires Trace(passes, c, o, w) && Closed(passes, c, o, w) && Explained(passes, c, o, w) && c.queue == []
    requires k < |passes| && Accepts(passes[k], o, w, page) && passes[k].queue[0].depth < o.maxDepth && i < |page.links|
    requires w.validate(page.links[i]).Some? && w.allowed(w.validate(page.links[i]).value)
    ensures var s := w.canonical(w.validate(page.links[i]).value);
      || (exists u :: u in c.requested && w.canonical(u) == s)
      || exists n, other :: 0 <= n < |passes| && Accepts(passes[n], o, w, other) && s == w.canonical(other.finalUrl)
  {
    var s := w.canonical(w.validate(page.links[i]).value);
    assert Met(page.links[i], c.seen, w);
    if Traced(s, c, w) {
      var u :| u in c.requested + Queue(c) && w.canonical(u) == s;
      assert Queue(c) == [];
    }
  }

  /** `crawl_url_evidence` */
  method CrawlEvidence(o: Options, w: Web) returns (c: Crawl, ghost passes: seq<Crawl>)
    requires RespectsLimits(w)
    ensures Tidy(c.requested, Queue(c), Finals(c), c.seen, w) && Accounted(c) && WithinLimits(c, o)
    ensures c.queue == [] || c.fetched == o.maxPages || c.bytes == o.maxTotalBytes
    ensures forall i :: 0 <= i < |o.seeds| ==> Met(o.seeds[i], c.seen, w)
    ensures Trace(passes, c, o, w) && Closed(passes, c, o, w) && Explained(passes, c, o, w) && Rooted(passes, c, o, w)
  {
    c := Empty(o, w);
    c := EnqueueAll(c, o.seeds, 0, o, w);
    passes := [];
    while c.queue != [] && c.fetched < o.maxPages && c.bytes < o.maxTotalBytes
      invariant Inv(c, o, w)
      invariant forall i :: 0 <= i < |o.seeds| ==> Met(o.seeds[i], c.seen, w)
      invariant Trace(passes, c, o, w) && Closed(passes, c, o, w) && Explained(passes, c, o, w)
      invariant Rooted(passes, c, o, w)
      decreases o.maxPages - c.fetched, |c.queue|
    {
      ghost var before := c;
      c := Visit(c, o, w);
      PassKeepsRooted(passes, before, c, o, w);
      PassKeepsClosed(passes, before, c, o, w);
      PassKeepsExplained(passes, before, c, o, w);
      passes := passes + [before];
    }
  }
}
