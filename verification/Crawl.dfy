/** The crawl frontier: breadth-first search in batches. */
module Crawl {
  // The search keeps page, depth and queue bounds. Rendering a page is a fixed function from a URL
  // to the links accepted on it.

  import opened Text

  type Url = string
  datatype Visit = Visit(url: Url, depth: nat)
  datatype Limits = Limits(maxPages: int, maxDepth: int)

  /** `queueBound` records that the discovery bound cut a page's links short. */
  datatype Frontier = Frontier(pages: seq<Visit>, queue: seq<Visit>, seen: set<Url>, discovered: int, queueBound: bool)

  function Start(url: Url): Frontier {
    Frontier([], [Visit(url, 0)], {url}, 1, false)
  }

  function Discover(f: Frontier, link: Url, depth: nat): Frontier {
    f.(seen := f.seen + {link}, discovered := f.discovered + 1, queue := f.queue + [Visit(link, depth + 1)])
  }

  predicate Skipped(f: Frontier, link: Url, depth: nat, limits: Limits) {
    link in f.seen || depth + 1 > limits.maxDepth
  }

  /** The links of one page, in order; the discovery bound stops at the first link it refuses. */
  function AddLinks(f: Frontier, links: seq<Url>, depth: nat, limits: Limits): Frontier
    decreases |links|
  {
    if links == [] then f
    else if Skipped(f, links[0], depth, limits) then AddLinks(f, links[1..], depth, limits)
    else if f.discovered >= limits.maxPages * 4 then f.(queueBound := true)
    else AddLinks(Discover(f, links[0], depth), links[1..], depth, limits)
  }

  /** Visiting one page: a step of the one-at-a-time search that the batches are compared with. */
  function VisitNext(f: Frontier, linksOn: Url -> seq<Url>, limits: Limits): Frontier
    requires f.queue != []
  {
    var next := f.queue[0];
    AddLinks(f.(pages := f.pages + [next], queue := f.queue[1..]), linksOn(next.url), next.depth, limits)
  }

  /** The one-at-a-time search after `n` visits, or after all of them when the queue ran dry first. */
  function After(start: Url, linksOn: Url -> seq<Url>, limits: Limits, n: nat): Frontier {
    if n == 0 then Start(start)
    else
      var f := After(start, linksOn, limits, n - 1);
      if f.queue == [] then f else VisitNext(f, linksOn, limits)
  }

  function Max(a: int, b: int): int { if a >= b then a else b }
  function Min(a: int, b: int): int { if a <= b then a else b }

  // ---- The loop as written --------------------------------------------------

  datatype Interrupt = Continue | Abort | DeadlinePassed
  datatype Limit =
    | Cancelled | MaxDuration | MaxPages | QueueBound
    | MaxRequests | MaxScripts | MaxStorageItems | MaxCookies

  /** Taking a page's links: the inner loop with its `continue` and `break` exits. */
  method TakeLinks(f: Frontier, links: seq<Url>, depth: nat, limits: Limits) returns (g: Frontier)
    ensures g == AddLinks(f, links, depth, limits)
  {
    g := f;
    var i := 0;
    while i < |links|
      invariant 0 <= i <= |links|
      invariant AddLinks(f, links, depth, limits) == AddLinks(g, links[i..], depth, limits)
    {
      var link := links[i];
      assert links[i..][0] == link && links[i..][1..] == links[i + 1..];
      i := i + 1;
      if link in g.seen {
        continue;
      }
      if depth + 1 > limits.maxDepth {
        continue;
      }
      if g.discovered >= limits.maxPages * 4 {
        g := g.(queueBound := true);
        return;
      }
      g := Discover(g, link, depth);
    }
  }

  /** Links are taken the same way whatever waits in front of the queue. */
  lemma {:induction false} AddLinksBehind(f: Frontier, front: seq<Visit>, links: seq<Url>, depth: nat, limits: Limits)
    ensures var g := AddLinks(f, links, depth, limits);
            AddLinks(f.(queue := front + f.queue), links, depth, limits) == g.(queue := front + g.queue)
    decreases |links|
  {
    if links != [] {
      if Skipped(f, links[0], depth, limits) {
        AddLinksBehind(f, front, links[1..], depth, limits);
      } else if f.discovered < limits.maxPages * 4 {
        AddLinksBehind(Discover(f, links[0], depth), front, links[1..], depth, limits);
        assert front + f.queue + [Visit(links[0], depth + 1)] == front + (f.queue + [Visit(links[0], depth + 1)]);
      }
    }
  }

  lemma {:induction false} AddLinksPages(f: Frontier, links: seq<Url>, depth: nat, limits: Limits)
    ensures AddLinks(f, links, depth, limits).pages == f.pages
    ensures f.queueBound ==> AddLinks(f, links, depth, limits).queueBound
    decreases |links|
  {
    if links != [] {
      if Skipped(f, links[0], depth, limits) {
        AddLinksPages(f, links[1..], depth, limits);
      } else if f.discovered < limits.maxPages * 4 {
        AddLinksPages(Discover(f, links[0], depth), links[1..], depth, limits);
      }
    }
  }

  /** The frontier with a batch still in front of its queue. */
  function Waiting(batch: seq<Visit>, f: Frontier): Frontier {
    f.(queue := batch + f.queue)
  }

  /** With that batch in front, the frontier is the one-at-a-time search after as many visits. */
  predicate OnCourse(batch: seq<Visit>, f: Frontier, start: Url, linksOn: Url -> seq<Url>, limits: Limits) {
    Waiting(batch, f) == After(start, linksOn, limits, |f.pages|)
  }

  /** Visiting a page of a batch is visiting it from the front of the queue it was spliced off. */
  lemma VisitInBatch(g: Frontier, item: Visit, later: seq<Visit>, linksOn: Url -> seq<Url>, limits: Limits)
    ensures var taken := AddLinks(g.(pages := g.pages + [item]), linksOn(item.url), item.depth, limits);
            VisitNext(Waiting([item] + later, g), linksOn, limits) == Waiting(later, taken)
  {
    var whole := [item] + later + g.queue;
    assert whole[0] == item && whole[1..] == later + g.queue;
    AddLinksBehind(g.(pages := g.pages + [item]), later, linksOn(item.url), item.depth, limits);
  }

  /** One batch: spliced off the queue, then its results taken in order. */
  method TakeBatch(f: Frontier, size: nat, start: Url, linksOn: Url -> seq<Url>, limits: Limits)
    returns (g: Frontier)
    requires 1 <= size <= |f.queue|
    requires f == After(start, linksOn, limits, |f.pages|)
    ensures |g.pages| == |f.pages| + size
    ensures g == After(start, linksOn, limits, |g.pages|)
    ensures f.queueBound ==> g.queueBound
  {
    var batch := f.queue[..size];
    g := f.(queue := f.queue[size..]);
    assert batch + g.queue == f.queue;
    for i := 0 to size
      invariant |g.pages| == |f.pages| + i
      invariant OnCourse(batch[i..], g, start, linksOn, limits)
      invariant f.queueBound ==> g.queueBound
    {
      assert batch[i..] == [batch[i]] + batch[i + 1..];
      g := TakePage(g, batch[i], batch[i + 1..], start, linksOn, limits);
    }
    assert batch[size..] == [] && [] + g.queue == g.queue;
  }

  /** One result of a batch: its page is kept and its links are taken. */
  method TakePage(f: Frontier, item: Visit, later: seq<Visit>, start: Url, linksOn: Url -> seq<Url>, limits: Limits)
    returns (g: Frontier)
    ensures |g.pages| == |f.pages| + 1
    ensures OnCourse([item] + later, f, start, linksOn, limits) ==> OnCourse(later, g, start, linksOn, limits)
    ensures f.queueBound ==> g.queueBound
  {
    g := f.(pages := f.pages + [item]);
    VisitInBatch(f, item, later, linksOn, limits);
    AddLinksPages(g, linksOn(item.url), item.depth, limits);
    g := TakeLinks(g, linksOn(item.url), item.depth, limits);
    assert Waiting([item] + later, f).queue != [];
  }

  /** The limit noted first is the one reported. */
  function NoteLimit(noted: Option<Limit>, limit: Option<Limit>): Option<Limit> {
    if noted.None? then limit else noted
  }

  /** What the world does to a crawl, round by round: the abort signal and the clock, and what the pages of the batch note. */
  datatype World = World(interrupts: nat -> Interrupt, noted: nat -> Option<Limit>, cookiesCut: bool)

  /** The limit noted in the first `k` rounds; a batch notes while it is visited, and only then are its links taken. */
  function NotedBy(start: Url, linksOn: Url -> seq<Url>, limits: Limits, world: World, pagesAt: seq<nat>, k: nat): Option<Limit>
    requires k < |pagesAt|
  {
    if k == 0 then None
    else
      var before := NotedBy(start, linksOn, limits, world, pagesAt, k - 1);
      NoteLimit(NoteLimit(before, world.noted(k - 1)),
                if After(start, linksOn, limits, pagesAt[k]).queueBound then Some(QueueBound) else None)
  }

  /** A round visits as many pages as may be visited at once, as may still be visited, or as are waiting: the least of these. */
  ghost predicate FullBatch(start: Url, linksOn: Url -> seq<Url>, limits: Limits, concurrency: int, from: nat, to: nat) {
    var size, atOnce, waiting := to - from, Max(1, concurrency), |After(start, linksOn, limits, from).queue|;
    && size <= atOnce && size <= limits.maxPages - from && size <= waiting
    && (size == atOnce || size == limits.maxPages - from || size == waiting)
  }

  /** Pages visited before each round: nothing interrupted the rounds taken, and each took a full batch. */
  ghost predicate Rounds(start: Url, linksOn: Url -> seq<Url>, limits: Limits, concurrency: int, world: World,
                         pagesAt: seq<nat>, rounds: nat) {
    && |pagesAt| == rounds + 1 && pagesAt[0] == 0
    && forall k :: 0 <= k < rounds ==>
         && pagesAt[k] < pagesAt[k + 1] && world.interrupts(k) == Continue
         && FullBatch(start, linksOn, limits, concurrency, pagesAt[k], pagesAt[k + 1])
  }

  lemma OneMoreRound(start: Url, linksOn: Url -> seq<Url>, limits: Limits, concurrency: int, world: World,
                     pagesAt: seq<nat>, rounds: nat, next: nat)
    requires Rounds(start, linksOn, limits, concurrency, world, pagesAt, rounds)
    requires pagesAt[rounds] < next && world.interrupts(rounds) == Continue
    requires FullBatch(start, linksOn, limits, concurrency, pagesAt[rounds], next)
    ensures Rounds(start, linksOn, limits, concurrency, world, pagesAt + [next], rounds + 1)
  {
  }

  /** Why a crawl stopped before its queue ran dry. */
  function StoppedBy(f: Frontier, interrupt: Interrupt): Option<Limit> {
    if f.queue == [] then None
    else match interrupt
      case Abort => Some(Cancelled)
      case DeadlinePassed => Some(MaxDuration)
      case Continue => Some(MaxPages)
  }

  /** No batch of the first `k` noted a limit, nor did the discovery bound fire. */
  ghost predicate Quiet(start: Url, linksOn: Url -> seq<Url>, limits: Limits, world: World, pagesAt: seq<nat>, k: nat)
    requires k < |pagesAt|
  {
    forall i: nat :: i < k ==> world.noted(i).None? && !After(start, linksOn, limits, pagesAt[i + 1]).queueBound
  }

  /** The limit is what the first batch to note one noted, or the discovery bound where that fired first. */
  ghost predicate FirstNoted(start: Url, linksOn: Url -> seq<Url>, limits: Limits, world: World, pagesAt: seq<nat>, k: nat, limit: Option<Limit>)
    requires k < |pagesAt|
  {
    && (forall j: nat :: j < k && Quiet(start, linksOn, limits, world, pagesAt, j) && world.noted(j).Some? ==> limit == world.noted(j))
    && (forall j: nat ::
          (j < k && Quiet(start, linksOn, limits, world, pagesAt, j) && world.noted(j).None?
           && After(start, linksOn, limits, pagesAt[j + 1]).queueBound)
          ==> limit == Some(QueueBound))
  }

  lemma NotedWhenNotQuiet(start: Url, linksOn: Url -> seq<Url>, limits: Limits, world: World, pagesAt: seq<nat>, k: nat)
    requires k < |pagesAt|
    ensures NotedBy(start, linksOn, limits, world, pagesAt, k).None? <==> Quiet(start, linksOn, limits, world, pagesAt, k)
  {
    if k > 0 {
      NotedWhenNotQuiet(start, linksOn, limits, world, pagesAt, k - 1);
    }
  }

  lemma OnceNoted(start: Url, linksOn: Url -> seq<Url>, limits: Limits, world: World, pagesAt: seq<nat>, j: nat, k: nat)
    requires j <= k < |pagesAt| && NotedBy(start, linksOn, limits, world, pagesAt, j).Some?
    ensures NotedBy(start, linksOn, limits, world, pagesAt, k) == NotedBy(start, linksOn, limits, world, pagesAt, j)
  {
    if j < k {
      OnceNoted(start, linksOn, limits, world, pagesAt, j, k - 1);
    }
  }

  lemma NotedByIsFirst(start: Url, linksOn: Url -> seq<Url>, limits: Limits, world: World, pagesAt: seq<nat>, k: nat)
    requires k < |pagesAt|
    ensures FirstNoted(start, linksOn, limits, world, pagesAt, k, NotedBy(start, linksOn, limits, world, pagesAt, k))
  {
    forall j: nat | j < k && Quiet(start, linksOn, limits, world, pagesAt, j)
                    && NotedBy(start, linksOn, limits, world, pagesAt, j + 1).Some?
      ensures NotedBy(start, linksOn, limits, world, pagesAt, k) == NotedBy(start, linksOn, limits, world, pagesAt, j + 1)
    {
      OnceNoted(start, linksOn, limits, world, pagesAt, j + 1, k);
    }
    forall j: nat | j < k && Quiet(start, linksOn, limits, world, pagesAt, j)
      ensures NotedBy(start, linksOn, limits, world, pagesAt, j).None?
    {
      NotedWhenNotQuiet(start, linksOn, limits, world, pagesAt, j);
    }
  }

  lemma NotedOneMore(start: Url, linksOn: Url -> seq<Url>, limits: Limits, world: World, pagesAt: seq<nat>, n: nat, k: nat)
    requires k < |pagesAt|
    ensures NotedBy(start, linksOn, limits, world, pagesAt + [n], k) == NotedBy(start, linksOn, limits, world, pagesAt, k)
  {
    if k > 0 {
      NotedOneMore(start, linksOn, limits, world, pagesAt, n, k - 1);
    }
  }

  /**
   * The crawl. Whatever the batch size, the state after any round is the one-at-a-time search after as
   * many visits as there are pages, and an uninterrupted crawl ends where that search ends. `pagesAt`
   * is how many pages there were before each round and at the end.
   */
  method CrawlSite(start: Url, linksOn: Url -> seq<Url>, limits: Limits, concurrency: int, world: World)
    returns (f: Frontier, limitReached: Option<Limit>, ghost rounds: nat, ghost pagesAt: seq<nat>)
    ensures f == After(start, linksOn, limits, |f.pages|)
    ensures |f.pages| <= Max(0, limits.maxPages)
    ensures (forall k :: world.interrupts(k) == Continue) ==> f == After(start, linksOn, limits, Max(0, limits.maxPages))
    ensures f.queue != [] && |f.pages| < limits.maxPages ==> world.interrupts(rounds) != Continue
    ensures Rounds(start, linksOn, limits, concurrency, world, pagesAt, rounds) && pagesAt[rounds] == |f.pages|
    ensures limitReached == NoteLimit(NoteLimit(NotedBy(start, linksOn, limits, world, pagesAt, rounds),
                                                StoppedBy(f, world.interrupts(rounds))),
                                      if world.cookiesCut then Some(MaxCookies) else None)
    ensures FirstNoted(start, linksOn, limits, world, pagesAt, rounds, limitReached)
    ensures Quiet(start, linksOn, limits, world, pagesAt, rounds) && f.queue != [] ==>
              && (limitReached == Some(Cancelled) <==> world.interrupts(rounds) == Abort)
              && (limitReached == Some(MaxDuration) <==> world.interrupts(rounds) == DeadlinePassed)
              && (limitReached == Some(MaxPages) <==> world.interrupts(rounds) == Continue)
    ensures Quiet(start, linksOn, limits, world, pagesAt, rounds) && f.queue == [] ==>
              limitReached == if world.cookiesCut then Some(MaxCookies) else None
  {
    f, limitReached, rounds, pagesAt := Search(start, linksOn, limits, concurrency, world);
    NotedByIsFirst(start, linksOn, limits, world, pagesAt, rounds);
    NotedWhenNotQuiet(start, linksOn, limits, world, pagesAt, rounds);
    if world.cookiesCut {
      limitReached := NoteLimit(limitReached, Some(MaxCookies));
    }
  }

  /** The frontier loop, before the cookies are read. */
  method Search(start: Url, linksOn: Url -> seq<Url>, limits: Limits, concurrency: int, world: World)
    returns (f: Frontier, limitReached: Option<Limit>, ghost rounds: nat, ghost pagesAt: seq<nat>)
    ensures f == After(start, linksOn, limits, |f.pages|)
    ensures |f.pages| <= Max(0, limits.maxPages)
    ensures (forall k :: world.interrupts(k) == Continue) ==> f == After(start, linksOn, limits, Max(0, limits.maxPages))
    ensures f.queue != [] && |f.pages| < limits.maxPages ==> world.interrupts(rounds) != Continue
    ensures Rounds(start, linksOn, limits, concurrency, world, pagesAt, rounds) && pagesAt[rounds] == |f.pages|
    ensures limitReached == NoteLimit(NotedBy(start, linksOn, limits, world, pagesAt, rounds), StoppedBy(f, world.interrupts(rounds)))
  {
    f := Start(start);
    limitReached := None;
    rounds, pagesAt := 0, [0];
    var round := 0;
    while f.queue != []
      invariant round == rounds && f == After(start, linksOn, limits, |f.pages|)
      invariant |f.pages| <= Max(0, limits.maxPages)
      invariant Rounds(start, linksOn, limits, concurrency, world, pagesAt, rounds) && pagesAt[rounds] == |f.pages|
      invariant limitReached == NotedBy(start, linksOn, limits, world, pagesAt, rounds)
      decreases Max(0, limits.maxPages) - |f.pages|
    {
      var interrupt := world.interrupts(round);
      if interrupt == Abort {
        limitReached := NoteLimit(limitReached, Some(Cancelled));
        return;
      }
      if interrupt == DeadlinePassed {
        limitReached := NoteLimit(limitReached, Some(MaxDuration));
        return;
      }
      if |f.pages| >= limits.maxPages {
        limitReached := NoteLimit(limitReached, Some(MaxPages));
        return;
      }
      var remaining := limits.maxPages - |f.pages|;
      var size := Min(Max(1, Min(concurrency, remaining)), |f.queue|);
      limitReached := NoteLimit(limitReached, world.noted(round));
      assert FullBatch(start, linksOn, limits, concurrency, |f.pages|, |f.pages| + size);
      f := TakeBatch(f, size, start, linksOn, limits);
      if f.queueBound {
        limitReached := NoteLimit(limitReached, Some(QueueBound));
      }
      OneMoreRound(start, linksOn, limits, concurrency, world, pagesAt, rounds, |f.pages|);
      NotedOneMore(start, linksOn, limits, world, pagesAt, |f.pages|, rounds);
      rounds, pagesAt := rounds + 1, pagesAt + [|f.pages|];
      round := round + 1;
    }
    DrySearchStays(start, linksOn, limits, |f.pages|, Max(0, limits.maxPages));
  }

  lemma {:induction false} DrySearchStays(start: Url, linksOn: Url -> seq<Url>, limits: Limits, n: nat, m: nat)
    requires n <= m && After(start, linksOn, limits, n).queue == []
    ensures After(start, linksOn, limits, m) == After(start, linksOn, limits, n)
  {
    if n < m {
      DrySearchStays(start, linksOn, limits, n, m - 1);
    }
  }

  // ---- What the search finds ------------------------------------------------

  /** `url` can be reached from the start by following exactly `n` accepted links. */
  ghost predicate Reach(start: Url, linksOn: Url -> seq<Url>, url: Url, n: nat)
    decreases n
  {
    if n == 0 then url == start
    else exists via :: Reach(start, linksOn, via, n - 1) && url in linksOn(via)
  }

  ghost predicate ReachWithin(start: Url, linksOn: Url -> seq<Url>, url: Url, bound: int) {
    exists m: nat :: m <= bound && Reach(start, linksOn, url, m)
  }

  ghost predicate IsDistance(start: Url, linksOn: Url -> seq<Url>, url: Url, n: nat) {
    Reach(start, linksOn, url, n) && forall m: nat :: m < n ==> !Reach(start, linksOn, url, m)
  }

  /** Everything discovered so far, in the order it was discovered. */
  function Discovered(f: Frontier): seq<Visit> {
    f.pages + f.queue
  }

  ghost predicate Distinct(d: seq<Visit>) {
    forall i, j :: 0 <= i < j < |d| ==> d[i].url != d[j].url
  }

  ghost predicate Ordered(d: seq<Visit>) {
    forall i, j :: 0 <= i < j < |d| ==> d[i].depth <= d[j].depth
  }

  predicate FoundWithin(d: seq<Visit>, url: Url, depth: int) {
    exists i :: 0 <= i < |d| && d[i].url == url && d[i].depth <= depth
  }

  predicate Knows(d: seq<Visit>, url: Url) {
    exists i :: 0 <= i < |d| && d[i].url == url
  }

  /** Discovery is in depth order, each URL once, each along a real path, within the bounds. */
  ghost predicate Sound(start: Url, linksOn: Url -> seq<Url>, limits: Limits, f: Frontier, horizon: int) {
    var d := Discovered(f);
    && |d| == f.discovered && d != [] && d[0] == Visit(start, 0)
    && f.discovered <= Max(1, 4 * limits.maxPages)
    && Distinct(d) && Ordered(d)
    && (forall u :: u in f.seen <==> Knows(d, u))
    && (forall i :: 0 <= i < |d| ==> d[i].depth <= horizon && d[i].depth <= Max(0, limits.maxDepth)
                                     && Reach(start, linksOn, d[i].url, d[i].depth))
  }

  lemma DiscoverSound(start: Url, linksOn: Url -> seq<Url>, limits: Limits, f: Frontier, link: Url, from: Visit)
    requires Sound(start, linksOn, limits, f, from.depth + 1)
    requires Reach(start, linksOn, from.url, from.depth) && link in linksOn(from.url)
    requires !Skipped(f, link, from.depth, limits) && f.discovered < limits.maxPages * 4
    ensures Sound(start, linksOn, limits, Discover(f, link, from.depth), from.depth + 1)
    ensures Discovered(Discover(f, link, from.depth)) == Discovered(f) + [Visit(link, from.depth + 1)]
  {
    var d, g := Discovered(f), Discover(f, link, from.depth);
    var e := Discovered(g);
    assert e == d + [Visit(link, from.depth + 1)];
    assert Reach(start, linksOn, link, from.depth + 1);
    forall u ensures u in g.seen <==> Knows(e, u) {
      if Knows(d, u) {
        var i :| 0 <= i < |d| && d[i].url == u;
        assert e[i].url == u;
      }
      if u == link {
        assert e[|d|].url == u;
      }
    }
  }

  predicate Extends(d: seq<Visit>, e: seq<Visit>) {
    |d| <= |e| && e[..|d|] == d
  }

  lemma FoundLater(d: seq<Visit>, e: seq<Visit>, url: Url, depth: int)
    requires Extends(d, e) && FoundWithin(d, url, depth)
    ensures FoundWithin(e, url, depth)
  {
    var i :| 0 <= i < |d| && d[i].url == url && d[i].depth <= depth;
    assert e[..|d|][i] == e[i];
  }

  /** Taking links keeps soundness and only adds to the end. */
  lemma {:induction false} AddLinksSound(start: Url, linksOn: Url -> seq<Url>, limits: Limits, f: Frontier, links: seq<Url>, from: Visit)
    requires Sound(start, linksOn, limits, f, from.depth + 1)
    requires Reach(start, linksOn, from.url, from.depth)
    requires forall l :: l in links ==> l in linksOn(from.url)
    ensures Sound(start, linksOn, limits, AddLinks(f, links, from.depth, limits), from.depth + 1)
    ensures Extends(Discovered(f), Discovered(AddLinks(f, links, from.depth, limits)))
    decreases |links|
  {
    if links != [] {
      assert links[0] in links;
      if Skipped(f, links[0], from.depth, limits) {
        AddLinksSound(start, linksOn, limits, f, links[1..], from);
      } else if f.discovered < limits.maxPages * 4 {
        DiscoverSound(start, linksOn, limits, f, links[0], from);
        var g, h := AddLinks(f, links, from.depth, limits), Discover(f, links[0], from.depth);
        AddLinksSound(start, linksOn, limits, h, links[1..], from);
        assert Discovered(g)[..|Discovered(f)|] == Discovered(g)[..|Discovered(h)|][..|Discovered(f)|];
      }
    }
  }

  /** Unless the discovery bound was hit, every link of a page above the depth bound ends up discovered. */
  lemma {:induction false} AddLinksFinds(start: Url, linksOn: Url -> seq<Url>, limits: Limits, f: Frontier, links: seq<Url>, from: Visit, l: Url)
    requires Sound(start, linksOn, limits, f, from.depth + 1)
    requires Reach(start, linksOn, from.url, from.depth)
    requires forall k :: k in links ==> k in linksOn(from.url)
    requires l in links && from.depth + 1 <= limits.maxDepth
    requires !AddLinks(f, links, from.depth, limits).queueBound
    ensures FoundWithin(Discovered(AddLinks(f, links, from.depth, limits)), l, from.depth + 1)
    decreases |links|
  {
    var d := Discovered(f);
    assert links == [links[0]] + links[1..];
    if Skipped(f, links[0], from.depth, limits) {
      if l == links[0] {
        assert Knows(d, l);
        var i :| 0 <= i < |d| && d[i].url == l;
        AddLinksSound(start, linksOn, limits, f, links, from);
        FoundLater(d, Discovered(AddLinks(f, links, from.depth, limits)), l, from.depth + 1);
      } else {
        AddLinksFinds(start, linksOn, limits, f, links[1..], from, l);
      }
    } else {
      DiscoverSound(start, linksOn, limits, f, links[0], from);
      var h := Discover(f, links[0], from.depth);
      if l == links[0] {
        assert Discovered(h)[|d|] == Visit(l, from.depth + 1);
        AddLinksSound(start, linksOn, limits, h, links[1..], from);
        FoundLater(Discovered(h), Discovered(AddLinks(h, links[1..], from.depth, limits)), l, from.depth + 1);
      } else {
        AddLinksFinds(start, linksOn, limits, h, links[1..], from, l);
      }
    }
  }

  /** Every link of a visited page that the depth bound admits has been discovered, one step deeper at most. */
  ghost predicate Closed(linksOn: Url -> seq<Url>, limits: Limits, f: Frontier) {
    !f.queueBound ==>
      forall i, l :: 0 <= i < |f.pages| && f.pages[i].depth + 1 <= limits.maxDepth && l in linksOn(f.pages[i].url)
        ==> FoundWithin(Discovered(f), l, f.pages[i].depth + 1)
  }

  function Horizon(f: Frontier): int {
    if f.pages == [] then 0 else f.pages[|f.pages| - 1].depth + 1
  }

  ghost predicate SearchInvariant(start: Url, linksOn: Url -> seq<Url>, limits: Limits, f: Frontier) {
    Sound(start, linksOn, limits, f, Horizon(f)) && Closed(linksOn, limits, f)
  }

  lemma StartInvariant(start: Url, linksOn: Url -> seq<Url>, limits: Limits)
    ensures SearchInvariant(start, linksOn, limits, Start(start))
  {
    var d := Discovered(Start(start));
    assert d == [Visit(start, 0)];
    assert Reach(start, linksOn, start, 0);
    forall u ensures u in Start(start).seen <==> Knows(d, u) {
      if u == start {
        assert d[0].url == u;
      }
    }
  }

  lemma {:induction false} AfterInvariant(start: Url, linksOn: Url -> seq<Url>, limits: Limits, n: nat)
    ensures var f := After(start, linksOn, limits, n);
            && SearchInvariant(start, linksOn, limits, f)
            && (|f.pages| == n || (f.queue == [] && |f.pages| < n))
  {
    if n == 0 {
      StartInvariant(start, linksOn, limits);
    } else {
      AfterInvariant(start, linksOn, limits, n - 1);
      var f := After(start, linksOn, limits, n - 1);
      if f.queue != [] {
        VisitKeepsInvariant(start, linksOn, limits, f);
      }
    }
  }

  lemma VisitKeepsInvariant(start: Url, linksOn: Url -> seq<Url>, limits: Limits, f: Frontier)
    requires SearchInvariant(start, linksOn, limits, f) && f.queue != []
    ensures var g := VisitNext(f, linksOn, limits);
            SearchInvariant(start, linksOn, limits, g) && |g.pages| == |f.pages| + 1
  {
    var next := f.queue[0];
    var moved := f.(pages := f.pages + [next], queue := f.queue[1..]);
    var g := VisitNext(f, linksOn, limits);
    assert Discovered(moved) == Discovered(f);
    assert Discovered(f)[|f.pages|] == next;
    assert Horizon(f) <= next.depth + 1 by {
      if f.pages != [] {
        assert Discovered(f)[|f.pages| - 1] == f.pages[|f.pages| - 1];
      }
    }
    assert Sound(start, linksOn, limits, moved, next.depth + 1);
    AddLinksSound(start, linksOn, limits, moved, linksOn(next.url), next);
    AddLinksPages(moved, linksOn(next.url), next.depth, limits);
    if !g.queueBound {
      forall i, l | 0 <= i < |g.pages| && g.pages[i].depth + 1 <= limits.maxDepth && l in linksOn(g.pages[i].url)
        ensures FoundWithin(Discovered(g), l, g.pages[i].depth + 1)
      {
        if i < |f.pages| {
          FoundLater(Discovered(f), Discovered(g), l, f.pages[i].depth + 1);
        } else {
          AddLinksFinds(start, linksOn, limits, moved, linksOn(next.url), next, l);
        }
      }
    }
  }

  /** The next URL to visit is no deeper than `depth`. */
  predicate PendingWithin(f: Frontier, depth: int) {
    f.queue != [] && f.queue[0].depth <= depth
  }

  /** A URL within `n` links is already discovered at that depth, or the front of the queue is at most that deep. */
  lemma {:induction false} NearbyIsFound(start: Url, linksOn: Url -> seq<Url>, limits: Limits, f: Frontier, u: Url, n: nat)
    requires SearchInvariant(start, linksOn, limits, f) && !f.queueBound
    requires Reach(start, linksOn, u, n) && n <= Max(0, limits.maxDepth)
    ensures FoundWithin(Discovered(f), u, n) || PendingWithin(f, n)
    decreases n
  {
    var d := Discovered(f);
    if n == 0 {
      assert d[0].url == u;
    } else {
      var via :| Reach(start, linksOn, via, n - 1) && u in linksOn(via);
      NearbyIsFound(start, linksOn, limits, f, via, n - 1);
      assert f.queue != [] ==> d[|f.pages|] == f.queue[0];
      if !PendingWithin(f, n) {
        var i :| 0 <= i < |d| && d[i].url == via && d[i].depth <= n - 1;
        if i < |f.pages| {
          assert FoundWithin(d, u, f.pages[i].depth + 1);
          var j :| 0 <= j < |d| && d[j].url == u && d[j].depth <= f.pages[i].depth + 1;
        } else {
          assert false;
        }
      }
    }
  }

  // ---- Main results ---------------------------------------------------------

  /** However the crawl is cut short, unless by the discovery bound, each page is at its shortest-path depth. */
  lemma PagesAreAtShortestDepth(start: Url, linksOn: Url -> seq<Url>, limits: Limits, n: nat)
    requires !After(start, linksOn, limits, n).queueBound
    ensures forall v :: v in After(start, linksOn, limits, n).pages ==> IsDistance(start, linksOn, v.url, v.depth)
  {
    AfterInvariant(start, linksOn, limits, n);
    var f := After(start, linksOn, limits, n);
    var d := Discovered(f);
    assert f.queue != [] ==> d[|f.pages|] == f.queue[0];
    forall v | v in f.pages ensures IsDistance(start, linksOn, v.url, v.depth) {
      var i :| 0 <= i < |f.pages| && f.pages[i] == v;
      assert d[i] == v;
      forall m: nat | m < v.depth ensures !Reach(start, linksOn, v.url, m) {
        if Reach(start, linksOn, v.url, m) {
          NearbyIsFound(start, linksOn, limits, f, v.url, m);
          assert false;
        }
      }
    }
  }

  /**
   * A crawl that empties its queue with the discovery bound never reached has visited exactly the
   * URLs within `maxDepth` accepted links of the start, each once, each at its distance.
   */
  lemma EmptyQueueMeansComplete(start: Url, linksOn: Url -> seq<Url>, limits: Limits, n: nat)
    requires After(start, linksOn, limits, n).queue == [] && !After(start, linksOn, limits, n).queueBound
    ensures var pages := After(start, linksOn, limits, n).pages;
            && Distinct(pages)
            && (forall v :: v in pages ==> IsDistance(start, linksOn, v.url, v.depth))
            && (forall u :: Knows(pages, u) <==> ReachWithin(start, linksOn, u, Max(0, limits.maxDepth)))
  {
    AfterInvariant(start, linksOn, limits, n);
    PagesAreAtShortestDepth(start, linksOn, limits, n);
    var f := After(start, linksOn, limits, n);
    assert Discovered(f) == f.pages;
    forall u ensures Knows(f.pages, u) <==> ReachWithin(start, linksOn, u, Max(0, limits.maxDepth)) {
      if Knows(f.pages, u) {
        var i :| 0 <= i < |f.pages| && f.pages[i].url == u;
        assert Reach(start, linksOn, u, f.pages[i].depth);
      }
      if ReachWithin(start, linksOn, u, Max(0, limits.maxDepth)) {
        var m: nat :| m <= Max(0, limits.maxDepth) && Reach(start, linksOn, u, m);
        NearbyIsFound(start, linksOn, limits, f, u, m);
      }
    }
  }

  /** The two size bounds, after any number of visits: distinct pages, and discoveries within four times the page limit. */
  lemma DiscoveryIsBounded(start: Url, linksOn: Url -> seq<Url>, limits: Limits, n: nat)
    ensures var f := After(start, linksOn, limits, n);
            && f.discovered <= Max(1, 4 * limits.maxPages)
            && |f.pages| + |f.queue| == f.discovered == |f.seen|
            && (|f.pages| == n || (|f.pages| < n && f.queue == []))
            && (forall v :: v in f.pages ==> v.depth <= Max(0, limits.maxDepth))
  {
    AfterInvariant(start, linksOn, limits, n);
    var f := After(start, linksOn, limits, n);
    var d := Discovered(f);
    CountUrls(d, f.seen);
    forall v | v in f.pages ensures v.depth <= Max(0, limits.maxDepth) {
      var i :| 0 <= i < |f.pages| && f.pages[i] == v;
      assert d[i] == v;
    }
  }

  lemma {:induction false} CountUrls(d: seq<Visit>, urls: set<Url>)
    requires Distinct(d) && forall u :: u in urls <==> Knows(d, u)
    ensures |urls| == |d|
  {
    if d == [] {
      assert urls == {};
    } else {
      var last := |d| - 1;
      var rest := d[..last];
      assert d[last].url in urls by { assert Knows(d, d[last].url); }
      forall u ensures u in urls - {d[last].url} <==> Knows(rest, u) {
        if Knows(rest, u) {
          var i :| 0 <= i < |rest| && rest[i].url == u;
          assert d[i].url == u;
          assert Knows(d, u);
        }
        if Knows(d, u) && u != d[last].url {
          var i :| 0 <= i < |d| && d[i].url == u;
          assert rest[i].url == u;
        }
      }
      CountUrls(rest, urls - {d[last].url});
    }
  }

  // ---- When the discovery bound fires ---------------------------------------

  /** A page was visited whose link is shallow enough and was never discovered. */
  predicate LeftBehind(linksOn: Url -> seq<Url>, limits: Limits, f: Frontier) {
    exists v :: v in f.pages && v.depth + 1 <= limits.maxDepth && exists l :: l in linksOn(v.url) && l !in f.seen
  }

  /** Once the bound has fired nothing more is discovered. */
  predicate Full(limits: Limits, f: Frontier) {
    f.discovered >= 4 * limits.maxPages
  }

  lemma {:induction false} FullStaysAsItIs(f: Frontier, links: seq<Url>, depth: nat, limits: Limits)
    requires Full(limits, f)
    ensures var g := AddLinks(f, links, depth, limits); g.seen == f.seen && g.discovered == f.discovered
    decreases |links|
  {
    if links != [] && Skipped(f, links[0], depth, limits) {
      FullStaysAsItIs(f, links[1..], depth, limits);
    }
  }

  /** Taking links sets the bound only when it is full, and on a link that is then left behind. */
  lemma {:induction false} AddLinksFires(f: Frontier, links: seq<Url>, depth: nat, limits: Limits)
    requires !f.queueBound
    ensures var g := AddLinks(f, links, depth, limits);
            g.queueBound ==> Full(limits, g) && depth + 1 <= limits.maxDepth && exists l :: l in links && l !in g.seen
    decreases |links|
  {
    if links != [] {
      assert links == [links[0]] + links[1..];
      if Skipped(f, links[0], depth, limits) {
        AddLinksFires(f, links[1..], depth, limits);
      } else if f.discovered < limits.maxPages * 4 {
        AddLinksFires(Discover(f, links[0], depth), links[1..], depth, limits);
      } else {
        assert links[0] in links && links[0] !in f.seen;
      }
    }
  }

  ghost predicate FiredRightly(linksOn: Url -> seq<Url>, limits: Limits, f: Frontier) {
    f.queueBound ==> Full(limits, f) && LeftBehind(linksOn, limits, f)
  }

  lemma VisitFiresRightly(linksOn: Url -> seq<Url>, limits: Limits, f: Frontier)
    requires FiredRightly(linksOn, limits, f) && f.queue != []
    ensures FiredRightly(linksOn, limits, VisitNext(f, linksOn, limits))
  {
    var next := f.queue[0];
    var moved, g := f.(pages := f.pages + [next], queue := f.queue[1..]), VisitNext(f, linksOn, limits);
    AddLinksPages(moved, linksOn(next.url), next.depth, limits);
    if f.queueBound {
      FullStaysAsItIs(moved, linksOn(next.url), next.depth, limits);
      var v :| v in f.pages && v.depth + 1 <= limits.maxDepth && exists l :: l in linksOn(v.url) && l !in f.seen;
      assert v in g.pages;
    } else {
      AddLinksFires(moved, linksOn(next.url), next.depth, limits);
      assert next in g.pages;
    }
  }

  lemma {:induction false} AfterFiresRightly(start: Url, linksOn: Url -> seq<Url>, limits: Limits, n: nat)
    ensures FiredRightly(linksOn, limits, After(start, linksOn, limits, n))
  {
    if n > 0 {
      AfterFiresRightly(start, linksOn, limits, n - 1);
      var f := After(start, linksOn, limits, n - 1);
      if f.queue != [] {
        VisitFiresRightly(linksOn, limits, f);
      }
    }
  }

  /**
   * The bound fires exactly when a link of a visited page, shallow enough, is left behind; and only once four
   * times as many URLs are discovered as pages are allowed.
   */
  lemma BoundFiresIff(start: Url, linksOn: Url -> seq<Url>, limits: Limits, n: nat)
    ensures var f := After(start, linksOn, limits, n);
            && (f.queueBound <==> LeftBehind(linksOn, limits, f))
            && (f.queueBound ==> |f.seen| >= 4 * limits.maxPages)
  {
    AfterFiresRightly(start, linksOn, limits, n);
    AfterInvariant(start, linksOn, limits, n);
    DiscoveryIsBounded(start, linksOn, limits, n);
    var f := After(start, linksOn, limits, n);
    if !f.queueBound {
      forall v, l | v in f.pages && v.depth + 1 <= limits.maxDepth && l in linksOn(v.url) ensures l in f.seen {
        var i :| 0 <= i < |f.pages| && f.pages[i] == v;
        assert FoundWithin(Discovered(f), l, f.pages[i].depth + 1);
        assert Knows(Discovered(f), l);
      }
    }
  }

  /** The URLs within the depth bound. */
  ghost predicate Reachable(start: Url, linksOn: Url -> seq<Url>, limits: Limits, site: set<Url>) {
    forall u :: u in site <==> ReachWithin(start, linksOn, u, Max(0, limits.maxDepth))
  }

  lemma SeenIsReachable(start: Url, linksOn: Url -> seq<Url>, limits: Limits, site: set<Url>, n: nat)
    requires Reachable(start, linksOn, limits, site)
    ensures After(start, linksOn, limits, n).seen <= site
  {
    AfterInvariant(start, linksOn, limits, n);
    var f := After(start, linksOn, limits, n);
    forall u | u in f.seen ensures u in site {
      assert Knows(Discovered(f), u);
      var i :| 0 <= i < |Discovered(f)| && Discovered(f)[i].url == u;
      assert Reach(start, linksOn, u, Discovered(f)[i].depth);
    }
  }

  /** A link left behind is reachable, and so is one more URL than was discovered. */
  lemma LeftBehindIsReachable(start: Url, linksOn: Url -> seq<Url>, limits: Limits, site: set<Url>, n: nat)
    requires Reachable(start, linksOn, limits, site) && LeftBehind(linksOn, limits, After(start, linksOn, limits, n))
    ensures |After(start, linksOn, limits, n).seen| < |site|
  {
    AfterInvariant(start, linksOn, limits, n);
    SeenIsReachable(start, linksOn, limits, site, n);
    var f := After(start, linksOn, limits, n);
    var v :| v in f.pages && v.depth + 1 <= limits.maxDepth && exists l :: l in linksOn(v.url) && l !in f.seen;
    var l :| l in linksOn(v.url) && l !in f.seen;
    var i :| 0 <= i < |f.pages| && f.pages[i] == v;
    assert Discovered(f)[i] == v;
    assert Reach(start, linksOn, l, v.depth + 1);
    assert l in site;
    SmallerSubset(f.seen, site, l);
  }

  lemma {:induction false} SubsetIsNoLarger<T>(a: set<T>, b: set<T>)
    requires a <= b
    ensures |a| <= |b|
  {
    if a != {} {
      var x :| x in a;
      SubsetIsNoLarger(a - {x}, b - {x});
    }
  }

  lemma SmallerSubset<T>(a: set<T>, b: set<T>, x: T)
    requires a <= b && x in b && x !in a
    ensures |a| < |b|
  {
    SubsetIsNoLarger(a, b - {x});
  }

  /**
   * A site of at most four times as many reachable URLs as pages are allowed is never cut short by the
   * discovery bound; uninterrupted, the crawl visits all of it, or as many pages as are allowed.
   */
  lemma SmallSitesAreNotCut(start: Url, linksOn: Url -> seq<Url>, limits: Limits, site: set<Url>)
    requires Reachable(start, linksOn, limits, site) && |site| <= 4 * limits.maxPages
    ensures forall n: nat :: !After(start, linksOn, limits, n).queueBound
    ensures |After(start, linksOn, limits, Max(0, limits.maxPages)).pages| == Min(|site|, limits.maxPages)
  {
    forall n: nat ensures !After(start, linksOn, limits, n).queueBound {
      BoundFiresIff(start, linksOn, limits, n);
      if After(start, linksOn, limits, n).queueBound {
        LeftBehindIsReachable(start, linksOn, limits, site, n);
      }
    }
    var n := Max(0, limits.maxPages);
    var f := After(start, linksOn, limits, n);
    DiscoveryIsBounded(start, linksOn, limits, n);
    SeenIsReachable(start, linksOn, limits, site, n);
    SubsetIsNoLarger(f.seen, site);
    if f.queue == [] {
      EmptyQueueMeansComplete(start, linksOn, limits, n);
      CountUrls(f.pages, site);
    }
  }
}
