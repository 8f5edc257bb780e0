/** The frontier policy of custom/web_scraper/scraper.js as values: how the
    start URLs seed `pending`, which drained entries `processUrl` lets
    through to the worker, and how a worker result's links are folded back
    into `pending` under the page-depth, host-dispersal and allow-list rules.
    The `Crawler` class in module Scraper performs these steps in place and
    is proved equal to them; the lemmas here state what the steps promise. */
module Frontier {
  import opened Wrappers
  import opened Text
  import opened Url
  import opened CrawlConfig
  import Worker

  /** A pending entry `{url, depth, hostDepth}`. The source stores it as its
      `JSON.stringify` text; equal texts are exactly equal triples. */
  datatype Task = Task(url: string, depth: int, hostDepth: int)

  /** `visited` and `pending` together. */
  datatype State = State(visited: set<string>, pending: seq<Task>)

  /** `config.maxPageDepth` is truthy: only then is page depth limited. */
  predicate PageDepthLimited(c: Config) {
    TruthyInt(c.maxPageDepth)
  }

  /** A page at this depth may have its links enqueued. */
  predicate AllowedPage(c: Config, depth: int) {
    if PageDepthLimited(c) then depth < c.maxPageDepth.value else true
  }

  /** Beyond a set page depth: `processUrl` returns before the visited test. */
  predicate BeyondPageDepth(c: Config, t: Task) {
    PageDepthLimited(c) && t.depth > c.maxPageDepth.value
  }

  /** The gates of `processUrl`: not beyond a set page depth, and the
      normalised URL not yet visited. */
  predicate Dispatchable(c: Config, ops: UrlOps, visited: set<string>, t: Task) {
    !BeyondPageDepth(c, t) && Normalize(ops, t.url) !in visited
  }

  /** A maximum page depth of 0 is falsy and so sets no limit at all: every
      depth passes the gate and every page may have its links enqueued. */
  lemma ZeroPageDepthIsNoLimit(c: Config, ops: UrlOps, visited: set<string>, t: Task)
    requires c.maxPageDepth == Some(0)
    ensures AllowedPage(c, t.depth)
    ensures Dispatchable(c, ops, visited, t) <==> Normalize(ops, t.url) !in visited
  {
  }

  /** The start URLs' entries `(normalize(u), 0, 0)`, each added to `pending`
      unless an equal entry is already there. */
  function Seeded(ops: UrlOps, pending: seq<Task>, urls: seq<string>): seq<Task>
    decreases |urls|
  {
    if urls == [] then pending
    else
      var p := Seeded(ops, pending, urls[..|urls| - 1]);
      var t := Task(Normalize(ops, urls[|urls| - 1]), 0, 0);
      if t in p then p else p + [t]
  }

  /** Seeding keeps the existing entries in front, adds only seed entries,
      adds one for every start URL, and never duplicates an entry. */
  lemma {:induction false} SeededSpec(ops: UrlOps, pending: seq<Task>, urls: seq<string>)
    ensures |pending| <= |Seeded(ops, pending, urls)| && Seeded(ops, pending, urls)[..|pending|] == pending
    ensures NoDups(pending) ==> NoDups(Seeded(ops, pending, urls))
    ensures forall u :: u in urls ==> Task(Normalize(ops, u), 0, 0) in Seeded(ops, pending, urls)
    ensures forall k :: |pending| <= k < |Seeded(ops, pending, urls)| ==>
      exists u :: u in urls && Seeded(ops, pending, urls)[k] == Task(Normalize(ops, u), 0, 0)
    decreases |urls|
  {
    if urls != [] {
      var init := urls[..|urls| - 1];
      SeededSpec(ops, pending, init);
      var p := Seeded(ops, pending, init);
      var t := Task(Normalize(ops, urls[|urls| - 1]), 0, 0);
      var r := Seeded(ops, pending, urls);
      assert r == if t in p then p else p + [t];
      assert urls == init + [urls[|urls| - 1]];
      forall k | |pending| <= k < |r|
        ensures exists u :: u in urls && r[k] == Task(Normalize(ops, u), 0, 0)
      {
        if k < |p| {
          var u :| u in init && p[k] == Task(Normalize(ops, u), 0, 0);
          assert u in urls && r[k] == p[k];
        } else {
          assert r[k] == t;
        }
      }
    }
  }

  /** The result of gating a chunk: the grown `visited` and the tasks handed
      to the worker, with their URLs normalised. */
  datatype Gated = Gated(visited: set<string>, dispatched: seq<Task>)

  /** The synchronous prefix of `processUrl` for every entry of a chunk, in
      chunk order. */
  function GateChunk(c: Config, ops: UrlOps, visited: set<string>, chunk: seq<Task>): Gated
    decreases |chunk|
  {
    if chunk == [] then Gated(visited, [])
    else
      var g := GateChunk(c, ops, visited, chunk[..|chunk| - 1]);
      var t := chunk[|chunk| - 1];
      if Dispatchable(c, ops, g.visited, t) then
        var u := Normalize(ops, t.url);
        Gated(g.visited + {u}, g.dispatched + [Task(u, t.depth, t.hostDepth)])
      else g
  }

  function Urls(ts: seq<Task>): (us: seq<string>)
    ensures |us| == |ts| && forall i :: 0 <= i < |ts| ==> us[i] == ts[i].url
  {
    seq(|ts|, i requires 0 <= i < |ts| => ts[i].url)
  }

  /** Gating adds to `visited` exactly the dispatched URLs, each of them new
      and none twice. */
  lemma {:induction false} GateChunkVisits(c: Config, ops: UrlOps, visited: set<string>, chunk: seq<Task>)
    ensures var g := GateChunk(c, ops, visited, chunk);
      g.visited == visited + (set t | t in g.dispatched :: t.url)
      && NoDups(Urls(g.dispatched))
      && (forall t :: t in g.dispatched ==> t.url !in visited)
    decreases |chunk|
  {
    if chunk != [] {
      var init, e := chunk[..|chunk| - 1], chunk[|chunk| - 1];
      GateChunkVisits(c, ops, visited, init);
      var g := GateChunk(c, ops, visited, init);
      if Dispatchable(c, ops, g.visited, e) {
        var u := Normalize(ops, e.url);
        var d := g.dispatched + [Task(u, e.depth, e.hostDepth)];
        assert (set t | t in d :: t.url) == (set t | t in g.dispatched :: t.url) + {u};
        assert Urls(d) == Urls(g.dispatched) + [u];
        assert u !in Urls(g.dispatched);
      }
    }
  }

  /** Every dispatched task is a chunk entry with its URL normalised and
      within a set page depth, and every chunk entry is beyond the page
      depth or has its URL in `visited` after the chunk. Which of several
      entries with the same URL is dispatched is `GateChunkFirstWins`. */
  lemma {:induction false} GateChunkCovers(c: Config, ops: UrlOps, visited: set<string>, chunk: seq<Task>)
    ensures forall t :: t in GateChunk(c, ops, visited, chunk).dispatched ==>
      exists e :: e in chunk && t == Task(Normalize(ops, e.url), e.depth, e.hostDepth)
    ensures forall t :: t in GateChunk(c, ops, visited, chunk).dispatched ==>
      !(PageDepthLimited(c) && t.depth > c.maxPageDepth.value)
    ensures forall e :: e in chunk ==>
      (PageDepthLimited(c) && e.depth > c.maxPageDepth.value)
      || Normalize(ops, e.url) in GateChunk(c, ops, visited, chunk).visited
    decreases |chunk|
  {
    if chunk != [] {
      var init, e := chunk[..|chunk| - 1], chunk[|chunk| - 1];
      GateChunkCovers(c, ops, visited, init);
      assert chunk == init + [e];
      var g := GateChunk(c, ops, visited, init);
      var t' := Task(Normalize(ops, e.url), e.depth, e.hostDepth);
      forall t | t in GateChunk(c, ops, visited, chunk).dispatched
        ensures exists e' :: e' in chunk && t == Task(Normalize(ops, e'.url), e'.depth, e'.hostDepth)
      {
        if t in g.dispatched {
          var e' :| e' in init && t == Task(Normalize(ops, e'.url), e'.depth, e'.hostDepth);
          assert e' in chunk;
        } else {
          assert t == t' && e in chunk;
        }
      }
    }
  }

  /** `visited` is tested at each entry's own turn, so of several entries of
      a chunk with the same normalised URL the first one within the page
      depth is dispatched. */
  lemma {:induction false} GateChunkFirstWins(c: Config, ops: UrlOps, visited: set<string>, chunk: seq<Task>, i: nat)
    requires i < |chunk| && !BeyondPageDepth(c, chunk[i]) && Normalize(ops, chunk[i].url) !in visited
    requires forall j :: 0 <= j < i && !BeyondPageDepth(c, chunk[j]) ==>
      Normalize(ops, chunk[j].url) != Normalize(ops, chunk[i].url)
    ensures Task(Normalize(ops, chunk[i].url), chunk[i].depth, chunk[i].hostDepth)
      in GateChunk(c, ops, visited, chunk).dispatched
    decreases |chunk|
  {
    var init := chunk[..|chunk| - 1];
    var g := GateChunk(c, ops, visited, init);
    var u := Normalize(ops, chunk[i].url);
    if i < |chunk| - 1 {
      assert init[i] == chunk[i];
      assert forall j :: 0 <= j < i ==> init[j] == chunk[j];
      GateChunkFirstWins(c, ops, visited, init, i);
    } else {
      GateChunkVisits(c, ops, visited, init);
      GateChunkCovers(c, ops, visited, init);
      assert u !in g.visited by {
        forall t | t in g.dispatched ensures t.url != u {
          var e :| e in init && t == Task(Normalize(ops, e.url), e.depth, e.hostDepth);
          var j :| 0 <= j < |init| && init[j] == e;
          assert chunk[j] == e;
        }
      }
    }
  }

  /** A discovered link once resolved: the entry it would be queued as and
      its host name. */
  datatype Child = Child(task: Task, host: string)

  /** The entry for `link` found on the page of `parent`, whose host is
      `baseHost`; None when resolving the link or parsing the result throws. */
  function ChildOf(ops: UrlOps, parent: Task, baseHost: string, link: string): (ch: Option<Child>)
    ensures ch.Some? <==>
      ops.resolve(link, parent.url).Some? && Hostname(ops, ops.resolve(link, parent.url).value).Some?
    ensures ch.Some? ==>
      var resolved := ops.resolve(link, parent.url).value;
      ch.value.host == Hostname(ops, resolved).value
      && ch.value.task.url == Normalize(ops, resolved)
      && ch.value.task.depth == parent.depth + 1
      && (ch.value.host == baseHost ==> ch.value.task.hostDepth == parent.hostDepth)
      && (ch.value.host != baseHost ==> ch.value.task.hostDepth == parent.hostDepth + 1)
  {
    match ops.resolve(link, parent.url)
    case None => None
    case Some(newUrl) =>
      match Hostname(ops, newUrl)
      case None => None
      case Some(newHost) =>
        var newHostDepth := if baseHost == newHost then parent.hostDepth else parent.hostDepth + 1;
        Some(Child(Task(Normalize(ops, newUrl), parent.depth + 1, newHostDepth), newHost))
  }

  /** The dispersal rule: within `maxHostDepth` host hops, or on an allowed
      host. An absent `allowedDomains` makes `includes` throw, which drops
      the link. */
  predicate HostPermitted(c: Config, ch: Child) {
    c.allowedDomains.Some?
    && ((c.maxHostDepth.Some? && ch.task.hostDepth <= c.maxHostDepth.value)
        || ch.host in c.allowedDomains.value)
  }

  /** The link's entry may join `pending`: it resolves, is permitted, and
      its URL is not visited. */
  predicate Admissible(c: Config, visited: set<string>, ch: Option<Child>) {
    ch.Some? && HostPermitted(c, ch.value) && ch.value.task.url !in visited
  }

  /** One iteration of the link loop. */
  function Enqueue(c: Config, ops: UrlOps, visited: set<string>, pending: seq<Task>,
                   parent: Task, baseHost: string, link: string): (r: seq<Task>)
    ensures r != pending <==>
      Admissible(c, visited, ChildOf(ops, parent, baseHost, link))
      && ChildOf(ops, parent, baseHost, link).value.task !in pending
    ensures r != pending ==> r == pending + [ChildOf(ops, parent, baseHost, link).value.task]
  {
    var ch := ChildOf(ops, parent, baseHost, link);
    if Admissible(c, visited, ch) && ch.value.task !in pending then pending + [ch.value.task]
    else pending
  }

  /** The link loop over a page's links, in order. */
  function FoldLinks(c: Config, ops: UrlOps, visited: set<string>, pending: seq<Task>,
                     parent: Task, baseHost: string, links: seq<string>): seq<Task>
    decreases |links|
  {
    if links == [] then pending
    else
      Enqueue(c, ops, visited, FoldLinks(c, ops, visited, pending, parent, baseHost, links[..|links| - 1]),
              parent, baseHost, links[|links| - 1])
  }

  /** The entries of the admissible links among `links`. */
  function AdmittedTasks(c: Config, ops: UrlOps, visited: set<string>, parent: Task, baseHost: string,
                         links: seq<string>): set<Task>
  {
    set l | l in links && Admissible(c, visited, ChildOf(ops, parent, baseHost, l))
      :: ChildOf(ops, parent, baseHost, l).value.task
  }

  /** An admitted entry is unvisited and one page deeper than its parent. */
  lemma AdmittedTaskShape(c: Config, ops: UrlOps, visited: set<string>, parent: Task, baseHost: string,
                          links: seq<string>, t: Task)
    requires t in AdmittedTasks(c, ops, visited, parent, baseHost, links)
    ensures t.url !in visited && t.depth == parent.depth + 1
  {
    var l :| l in links && Admissible(c, visited, ChildOf(ops, parent, baseHost, l))
             && ChildOf(ops, parent, baseHost, l).value.task == t;
  }

  /** What folding links into `pending` promises: the old entries stay in
      front; every added entry is the admissible entry of one of the links;
      every admissible link's entry ends up pending; and no entry is doubled. */
  predicate FoldedFrom(c: Config, ops: UrlOps, visited: set<string>, pending: seq<Task>,
                       parent: Task, baseHost: string, links: seq<string>, r: seq<Task>) {
    |pending| <= |r| && r[..|pending|] == pending
    && (NoDups(pending) ==> NoDups(r))
    && (forall k :: |pending| <= k < |r| ==> r[k] in AdmittedTasks(c, ops, visited, parent, baseHost, links))
    && (forall l :: l in links && Admissible(c, visited, ChildOf(ops, parent, baseHost, l)) ==>
          ChildOf(ops, parent, baseHost, l).value.task in r)
  }

  /** Folding links keeps the old entries in front and doubles no entry. */
  lemma {:induction false} FoldLinksPrefix(c: Config, ops: UrlOps, visited: set<string>, pending: seq<Task>,
                                           parent: Task, baseHost: string, links: seq<string>)
    ensures var r := FoldLinks(c, ops, visited, pending, parent, baseHost, links);
      |pending| <= |r| && r[..|pending|] == pending && (NoDups(pending) ==> NoDups(r))
    decreases |links|
  {
    if links != [] {
      var init := links[..|links| - 1];
      FoldLinksPrefix(c, ops, visited, pending, parent, baseHost, init);
      var p := FoldLinks(c, ops, visited, pending, parent, baseHost, init);
      var r := FoldLinks(c, ops, visited, pending, parent, baseHost, links);
      if r != p {
        assert r[..|p|] == p;
        assert r[..|pending|] == p[..|pending|];
      }
    }
  }

  /** Every entry folding adds is the admissible entry of one of the links. */
  lemma {:induction false} FoldLinksSound(c: Config, ops: UrlOps, visited: set<string>, pending: seq<Task>,
                                          parent: Task, baseHost: string, links: seq<string>)
    ensures var r := FoldLinks(c, ops, visited, pending, parent, baseHost, links);
      forall k :: |pending| <= k < |r| ==> r[k] in AdmittedTasks(c, ops, visited, parent, baseHost, links)
    decreases |links|
  {
    if links != [] {
      var init, l := links[..|links| - 1], links[|links| - 1];
      FoldLinksSound(c, ops, visited, pending, parent, baseHost, init);
      FoldLinksPrefix(c, ops, visited, pending, parent, baseHost, init);
      var p := FoldLinks(c, ops, visited, pending, parent, baseHost, init);
      var r := FoldLinks(c, ops, visited, pending, parent, baseHost, links);
      var admitted := AdmittedTasks(c, ops, visited, parent, baseHost, links);
      assert AdmittedTasks(c, ops, visited, parent, baseHost, init) <= admitted by {
        assert forall l' :: l' in init ==> l' in links;
      }
      forall k | |pending| <= k < |r| ensures r[k] in admitted {
        if k < |p| {
          assert r[k] == p[k];
        } else {
          assert r[k] == ChildOf(ops, parent, baseHost, l).value.task;
          assert l in links;
        }
      }
    }
  }

  /** Every admissible link's entry ends up pending. */
  lemma {:induction false} FoldLinksComplete(c: Config, ops: UrlOps, visited: set<string>, pending: seq<Task>,
                                             parent: Task, baseHost: string, links: seq<string>)
    ensures var r := FoldLinks(c, ops, visited, pending, parent, baseHost, links);
      forall l :: l in links && Admissible(c, visited, ChildOf(ops, parent, baseHost, l)) ==>
        ChildOf(ops, parent, baseHost, l).value.task in r
    decreases |links|
  {
    if links != [] {
      var init, last := links[..|links| - 1], links[|links| - 1];
      FoldLinksComplete(c, ops, visited, pending, parent, baseHost, init);
      var p := FoldLinks(c, ops, visited, pending, parent, baseHost, init);
      var r := FoldLinks(c, ops, visited, pending, parent, baseHost, links);
      assert forall t :: t in p ==> t in r;
      forall l | l in links && Admissible(c, visited, ChildOf(ops, parent, baseHost, l))
        ensures ChildOf(ops, parent, baseHost, l).value.task in r
      {
        if l != last {
          assert links == init + [last];
          assert l in init;
        }
      }
    }
  }

  lemma FoldLinksSpec(c: Config, ops: UrlOps, visited: set<string>, pending: seq<Task>,
                      parent: Task, baseHost: string, links: seq<string>)
    ensures FoldedFrom(c, ops, visited, pending, parent, baseHost, links,
                       FoldLinks(c, ops, visited, pending, parent, baseHost, links))
  {
    FoldLinksPrefix(c, ops, visited, pending, parent, baseHost, links);
    FoldLinksSound(c, ops, visited, pending, parent, baseHost, links);
    FoldLinksComplete(c, ops, visited, pending, parent, baseHost, links);
  }

  /** The fold of one worker result into `pending` (the part of
      `processUrl` after the worker returns). */
  function FoldResult(c: Config, ops: UrlOps, visited: set<string>, pending: seq<Task>,
                      parent: Task, result: Worker.TaskOutput): seq<Task>
  {
    if TruthyString(result.error) then pending
    else if |result.links| > 0 && result.mimeType == Some("text/html") && AllowedPage(c, parent.depth) then
      match Hostname(ops, parent.url)
      case None => pending
      case Some(baseHost) => FoldLinks(c, ops, visited, pending, parent, baseHost, result.links)
    else pending
  }

  /** The worker result's links are followed: no error, an HTML page with
      links, below the page-depth limit, and a parseable page URL. */
  predicate LinksFollowed(c: Config, ops: UrlOps, parent: Task, result: Worker.TaskOutput) {
    !TruthyString(result.error) && result.mimeType == Some("text/html") && result.links != []
    && AllowedPage(c, parent.depth) && Hostname(ops, parent.url).Some?
  }

  /** A result with an error, a non-HTML type, no links, or from a page at
      the depth limit enqueues nothing; otherwise its links are folded in
      under the admission rule. */
  lemma FoldResultSpec(c: Config, ops: UrlOps, visited: set<string>, pending: seq<Task>,
                       parent: Task, result: Worker.TaskOutput)
    ensures var r := FoldResult(c, ops, visited, pending, parent, result);
      (!LinksFollowed(c, ops, parent, result) ==> r == pending)
      && (LinksFollowed(c, ops, parent, result) ==>
            FoldedFrom(c, ops, visited, pending, parent, Hostname(ops, parent.url).value, result.links, r))
  {
    if LinksFollowed(c, ops, parent, result) {
      FoldLinksSpec(c, ops, visited, pending, parent, Hostname(ops, parent.url).value, result.links);
    }
  }

  /** A worker whose result depends on the URL only. */
  function WorkFor(work: (Worker.TaskConfig, string) -> Worker.TaskOutput, tc: Worker.TaskConfig): string -> Worker.TaskOutput {
    u => work(tc, u)
  }

  /** Folding the results of all dispatched tasks, in dispatch order. */
  function FoldAll(c: Config, ops: UrlOps, visited: set<string>, pending: seq<Task>,
                   dispatched: seq<Task>, work: string -> Worker.TaskOutput): seq<Task>
    decreases |dispatched|
  {
    if dispatched == [] then pending
    else
      var d := dispatched[|dispatched| - 1];
      FoldResult(c, ops, visited, FoldAll(c, ops, visited, pending, dispatched[..|dispatched| - 1], work),
                 d, work(d.url))
  }

  /** Folding all results keeps the old entries in front, adds only unvisited
      entries one page deeper than some dispatched task, and doubles none. */
  lemma {:induction false} FoldAllSpec(c: Config, ops: UrlOps, visited: set<string>, pending: seq<Task>,
                                       dispatched: seq<Task>, work: string -> Worker.TaskOutput)
    ensures var r := FoldAll(c, ops, visited, pending, dispatched, work);
      |pending| <= |r| && r[..|pending|] == pending
      && (NoDups(pending) ==> NoDups(r))
      && (forall k :: |pending| <= k < |r| ==>
            r[k].url !in visited && exists d :: d in dispatched && r[k].depth == d.depth + 1)
    decreases |dispatched|
  {
    if dispatched != [] {
      var init, d := dispatched[..|dispatched| - 1], dispatched[|dispatched| - 1];
      FoldAllSpec(c, ops, visited, pending, init, work);
      var p := FoldAll(c, ops, visited, pending, init, work);
      var r := FoldAll(c, ops, visited, pending, dispatched, work);
      assert r == FoldResult(c, ops, visited, p, d, work(d.url));
      assert dispatched == init + [d];
      FoldResultSpec(c, ops, visited, p, d, work(d.url));
      assert r[..|p|] == p;
      assert r[..|pending|] == p[..|pending|];
      forall k | |pending| <= k < |r|
        ensures r[k].url !in visited && exists d' :: d' in dispatched && r[k].depth == d'.depth + 1
      {
        if k < |p| {
          assert r[k] == p[k];
          var d' :| d' in init && p[k].depth == d'.depth + 1;
          assert d' in dispatched;
        } else {
          AdmittedTaskShape(c, ops, visited, d, Hostname(ops, d.url).value, work(d.url).links, r[k]);
        }
      }
    }
  }

  /** How many entries a batch drains: `splice(0, concurrency * 2)` clamps
      the count to the queue length, and a non-positive or missing count
      drains nothing. */
  function BatchSize(c: Config, n: nat): (k: nat)
    ensures k <= n
    ensures c.concurrency.Some? && c.concurrency.value >= 1 ==>
      k == if 2 * c.concurrency.value <= n then 2 * c.concurrency.value else n
  {
    if c.concurrency.None? || 2 * c.concurrency.value <= 0 then 0
    else if 2 * c.concurrency.value <= n then 2 * c.concurrency.value
    else n
  }

  /** One `runBatch`: drain the first entries, gate them all in order, then
      fold every dispatched task's result in order. */
  function Batch(c: Config, ops: UrlOps, work: string -> Worker.TaskOutput, s: State): State {
    var n := BatchSize(c, |s.pending|);
    var g := GateChunk(c, ops, s.visited, s.pending[..n]);
    State(g.visited, FoldAll(c, ops, g.visited, s.pending[n..], g.dispatched, work))
  }

  /** A batch removes exactly the first `BatchSize` entries and keeps the
      rest in order at the front; `visited` only grows; every added entry is
      unvisited; and a duplicate-free queue stays duplicate-free. */
  lemma BatchSpec(c: Config, ops: UrlOps, work: string -> Worker.TaskOutput, s: State)
    ensures var n := BatchSize(c, |s.pending|);
      var s' := Batch(c, ops, work, s);
      s.visited <= s'.visited
      && |s.pending| - n <= |s'.pending| && s'.pending[..|s.pending| - n] == s.pending[n..]
      && (forall k :: |s.pending| - n <= k < |s'.pending| ==> s'.pending[k].url !in s'.visited)
      && (NoDups(s.pending) ==> NoDups(s'.pending))
  {
    var n := BatchSize(c, |s.pending|);
    var g := GateChunk(c, ops, s.visited, s.pending[..n]);
    GateChunkVisits(c, ops, s.visited, s.pending[..n]);
    FoldAllSpec(c, ops, g.visited, s.pending[n..], g.dispatched, work);
    if NoDups(s.pending) {
      assert NoDups(s.pending[n..]) by {
        forall i, j | 0 <= i < j < |s.pending[n..]| ensures s.pending[n..][i] != s.pending[n..][j] {
          assert s.pending[n..][i] == s.pending[n + i];
        }
      }
    }
  }

  /** A batch over an empty queue drains nothing, dispatches nothing and
      leaves the state as it was. */
  lemma BatchOfEmptyQueue(c: Config, ops: UrlOps, work: string -> Worker.TaskOutput, s: State)
    requires s.pending == []
    ensures Batch(c, ops, work, s) == s
  {
    assert s.pending[..0] == [];
  }

  /** The batch loop of `start`: run batches until one leaves the queue
      empty, at most `rounds` of them. */
  function Drive(c: Config, ops: UrlOps, work: string -> Worker.TaskOutput, s: State, rounds: nat): State
    decreases rounds
  {
    if rounds == 0 then s
    else
      var s' := Batch(c, ops, work, s);
      if s'.pending == [] then s' else Drive(c, ops, work, s', rounds - 1)
  }

  /** Over any number of batches `visited` only grows, a duplicate-free
      queue stays duplicate-free, and an empty queue is left as it is. */
  lemma {:induction false} DriveSpec(c: Config, ops: UrlOps, work: string -> Worker.TaskOutput, s: State, rounds: nat)
    ensures s.visited <= Drive(c, ops, work, s, rounds).visited
    ensures NoDups(s.pending) ==> NoDups(Drive(c, ops, work, s, rounds).pending)
    ensures s.pending == [] ==> Drive(c, ops, work, s, rounds) == s
    decreases rounds
  {
    if rounds > 0 {
      var s' := Batch(c, ops, work, s);
      BatchSpec(c, ops, work, s);
      if s.pending == [] {
        BatchOfEmptyQueue(c, ops, work, s);
      }
      if s'.pending != [] {
        DriveSpec(c, ops, work, s', rounds - 1);
      }
    }
  }
}
