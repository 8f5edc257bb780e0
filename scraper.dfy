/** The crawl coordinator of custom/web_scraper/scraper.js: the module-level
    `config`, `visited` and `pending` become fields of a `Crawler`, and
    `start`, `runBatch` and `processUrl` its methods (URL normalisation is
    `Url.Normalize`). The worker pool is a function from a task
    configuration and a URL to the worker's result; a batch gates every
    drained entry first and then folds the results in chunk order. Every
    method that changes `visited` or `pending` is proved to leave them equal
    to a function of module Frontier applied to the old state: `Seeded`,
    `Enqueue`, `FoldResult`, `GateChunk`, `FoldAll`, `Batch` and `Drive`. */
module Scraper {
  import opened Wrappers
  import opened Text
  import opened Url
  import opened CrawlConfig
  import opened Frontier
  import Worker

  /** How `start` ends: without a configuration or with an invalid one it
      returns before marking the route done; otherwise the route is marked
      done, and `drained` says whether the loop saw an empty queue. */
  datatype StartOutcome = NoConfig | InvalidConfig | Completed(drained: bool)

  /** Appending newly visited, distinct URLs to a duplicate-free fetch log
      whose set is `visited` keeps it duplicate-free, and its set becomes
      `visited` plus those URLs. */
  lemma FetchLogExtends(fetched: seq<string>, visited: set<string>, dispatched: seq<Task>)
    requires NoDups(fetched) && visited == (set u | u in fetched)
    requires NoDups(Urls(dispatched)) && forall t :: t in dispatched ==> t.url !in visited
    ensures NoDups(fetched + Urls(dispatched))
    ensures (set u | u in fetched + Urls(dispatched)) == visited + (set t | t in dispatched :: t.url)
  {
    var f := fetched + Urls(dispatched);
    forall i, j | 0 <= i < j < |f| ensures f[i] != f[j] {
      if j >= |fetched| {
        assert f[j] == dispatched[j - |fetched|].url;
        assert dispatched[j - |fetched|] in dispatched;
        if i >= |fetched| {
          assert f[i] == Urls(dispatched)[i - |fetched|];
        } else {
          assert f[i] in visited;
        }
      }
    }
    forall u | u in f ensures u in visited || u in (set t | t in dispatched :: t.url) {
      var k :| 0 <= k < |f| && f[k] == u;
      if k >= |fetched| {
        assert dispatched[k - |fetched|] in dispatched;
      }
    }
    forall t | t in dispatched ensures t.url in f {
      var k :| 0 <= k < |dispatched| && dispatched[k] == t;
      assert f[|fetched| + k] == t.url;
    }
  }

  class Crawler {
    var config: Config
    var mimeTypes: seq<string>
    var visited: set<string>
    var pending: seq<Task>
    /** Every URL handed to the worker, in order. */
    ghost var fetched: seq<string>
    /** Every entry drained from `pending`, in order. */
    ghost var drained: seq<Task>

    /** `pending` never holds an entry twice, no URL is fetched twice, and
        `visited` is exactly the set of fetched URLs. */
    ghost predicate Valid()
      reads this
    {
      NoDups(pending) && NoDups(fetched) && visited == (set u | u in fetched)
    }

    constructor(initial: Config)
      ensures Valid()
      ensures config == initial && mimeTypes == []
      ensures visited == {} && pending == [] && fetched == [] && drained == []
    {
      config := initial;
      mimeTypes := [];
      visited := {};
      pending := [];
      fetched := [];
      drained := [];
    }

    /** The seeding loop of `start`: each start URL, normalised, at depth 0
        and host depth 0, unless an equal entry is already pending. */
    method Seed(ops: UrlOps, urls: seq<string>)
      requires Valid()
      modifies this`pending
      ensures Valid()
      ensures pending == Seeded(ops, old(pending), urls)
    {
      for i := 0 to |urls|
        invariant pending == Seeded(ops, old(pending), urls[..i])
        invariant NoDups(pending)
      {
        assert urls[..i + 1][..i] == urls[..i];
        var item := Task(Normalize(ops, urls[i]), 0, 0);
        if item !in pending {
          pending := pending + [item];
        }
      }
      assert urls[..|urls|] == urls;
    }

    /** One iteration of the link loop of `processUrl`: resolve the link
        against the page URL, read its host, and queue its normalised entry
        when the dispersal rule permits it, its URL is unvisited and the
        entry is not already pending. */
    method EnqueueLink(ops: UrlOps, parent: Task, baseHost: string, link: string)
      modifies this`pending
      ensures pending == Enqueue(config, ops, visited, old(pending), parent, baseHost, link)
    {
      var newUrl := ops.resolve(link, parent.url);
      if newUrl.Some? {
        var newHost := Hostname(ops, newUrl.value);
        if newHost.Some? && config.allowedDomains.Some? {
          var newHostDepth := if baseHost == newHost.value then parent.hostDepth else parent.hostDepth + 1;
          var finalUrl := Normalize(ops, newUrl.value);
          var isAllowedHost := newHost.value in config.allowedDomains.value;
          var withinHostDepth := config.maxHostDepth.Some? && newHostDepth <= config.maxHostDepth.value;
          if (withinHostDepth || isAllowedHost) && finalUrl !in visited {
            var item := Task(finalUrl, parent.depth + 1, newHostDepth);
            if item !in pending {
              pending := pending + [item];
            }
          }
        }
      }
    }

    /** The part of `processUrl` after the worker returns: follow the
        result's links only for an error-free HTML page with links below the
        page-depth limit, and enqueue each admissible link once. A page URL
        whose host name cannot be read ends the whole fold; a link that
        cannot be resolved, or a missing allow-list, drops that link. */
    method ProcessResult(ops: UrlOps, parent: Task, result: Worker.TaskOutput)
      modifies this`pending
      ensures pending == FoldResult(config, ops, visited, old(pending), parent, result)
    {
      if TruthyString(result.error) {
        return;
      }
      var allowedPage := if PageDepthLimited(config) then parent.depth < config.maxPageDepth.value else true;
      if |result.links| > 0 && result.mimeType == Some("text/html") && allowedPage {
        var baseHost := Hostname(ops, parent.url);
        if baseHost.None? {
          return;
        }
        for i := 0 to |result.links|
          invariant pending == FoldLinks(config, ops, visited, old(pending), parent, baseHost.value, result.links[..i])
        {
          assert result.links[..i + 1][..i] == result.links[..i];
          EnqueueLink(ops, parent, baseHost.value, result.links[i]);
        }
        assert result.links[..|result.links|] == result.links;
      }
    }

    /** The synchronous prefix of `processUrl` for each drained entry, in
        order: skip it beyond a set page depth or when its normalised URL is
        visited; otherwise mark the URL visited and hand the task on. */
    method GateAll(ops: UrlOps, chunk: seq<Task>) returns (dispatched: seq<Task>)
      modifies this`visited, this`fetched, this`drained
      ensures Gated(visited, dispatched) == GateChunk(config, ops, old(visited), chunk)
      ensures fetched == old(fetched) + Urls(dispatched)
      ensures drained == old(drained) + chunk
    {
      dispatched := [];
      for i := 0 to |chunk|
        invariant Gated(visited, dispatched) == GateChunk(config, ops, old(visited), chunk[..i])
        invariant fetched == old(fetched) + Urls(dispatched)
        invariant drained == old(drained) + chunk[..i]
      {
        assert chunk[..i + 1][..i] == chunk[..i];
        var t := chunk[i];
        drained := drained + [t];
        var normUrl := Normalize(ops, t.url);
        if !(PageDepthLimited(config) && t.depth > config.maxPageDepth.value) && normUrl !in visited {
          visited := visited + {normUrl};
          assert Urls(dispatched + [Task(normUrl, t.depth, t.hostDepth)]) == Urls(dispatched) + [normUrl];
          dispatched := dispatched + [Task(normUrl, t.depth, t.hostDepth)];
          fetched := fetched + [normUrl];
        }
      }
      assert chunk[..|chunk|] == chunk;
    }

    /** Await every dispatched task's worker result and fold it into
        `pending`, in dispatch order. */
    method FoldAllResults(ops: UrlOps, dispatched: seq<Task>, work: (Worker.TaskConfig, string) -> Worker.TaskOutput)
      modifies this`pending
      ensures pending
        == FoldAll(config, ops, visited, old(pending), dispatched, WorkFor(work, TaskConfigOf(config, mimeTypes)))
    {
      for k := 0 to |dispatched|
        invariant pending
          == FoldAll(config, ops, visited, old(pending), dispatched[..k], WorkFor(work, TaskConfigOf(config, mimeTypes)))
      {
        assert dispatched[..k + 1][..k] == dispatched[..k];
        var result := work(TaskConfigOf(config, mimeTypes), dispatched[k].url);
        ProcessResult(ops, dispatched[k], result);
      }
      assert dispatched[..|dispatched|] == dispatched;
    }

    /** `runBatch`: drain up to twice the concurrency entries, pass each
        through the gates of `processUrl` (marking its URL visited before the
        worker runs), then fold every worker result back into `pending`.
        Returns whether entries remain. */
    method RunBatch(ops: UrlOps, work: (Worker.TaskConfig, string) -> Worker.TaskOutput) returns (more: bool)
      requires Valid()
      modifies this`visited, this`pending, this`fetched, this`drained
      ensures Valid()
      ensures State(visited, pending)
        == Batch(config, ops, WorkFor(work, TaskConfigOf(config, mimeTypes)), old(State(visited, pending)))
      ensures more <==> pending != []
      ensures old(visited) <= visited
      ensures drained == old(drained) + old(pending)[..BatchSize(config, |old(pending)|)]
      ensures fetched == old(fetched)
        + Urls(GateChunk(config, ops, old(visited), old(pending)[..BatchSize(config, |old(pending)|)]).dispatched)
    {
      var n := BatchSize(config, |pending|);
      var chunk := pending[..n];
      pending := pending[n..];
      var dispatched := GateAll(ops, chunk);
      GateChunkVisits(config, ops, old(visited), chunk);
      FetchLogExtends(old(fetched), old(visited), dispatched);
      FoldAllResults(ops, dispatched, work);
      BatchSpec(config, ops, WorkFor(work, TaskConfigOf(config, mimeTypes)), old(State(visited, pending)));
      more := |pending| > 0;
    }

    /** The batch loop of `start`: run `runBatch` while it reports entries
        left, at most `rounds` times. Returns whether the queue was seen
        empty. */
    method RunBatches(ops: UrlOps, work: (Worker.TaskConfig, string) -> Worker.TaskOutput, rounds: nat)
      returns (more: bool)
      requires Valid()
      modifies this`visited, this`pending, this`fetched, this`drained
      ensures Valid()
      ensures State(visited, pending)
        == Drive(config, ops, WorkFor(work, TaskConfigOf(config, mimeTypes)), old(State(visited, pending)), rounds)
      ensures old(visited) <= visited
      ensures !more <==> rounds > 0 && pending == []
    {
      ghost var w := WorkFor(work, TaskConfigOf(config, mimeTypes));
      ghost var target := Drive(config, ops, w, State(visited, pending), rounds);
      more := true;
      var left: nat := rounds;
      while more && left > 0
        invariant Valid()
        invariant old(visited) <= visited
        invariant more ==> Drive(config, ops, w, State(visited, pending), left) == target
        invariant !more ==> State(visited, pending) == target
        invariant left < rounds ==> (more <==> pending != [])
        invariant !more ==> left < rounds
      {
        ghost var before := State(visited, pending);
        more := RunBatch(ops, work);
        if more {
          assert Drive(config, ops, w, before, left) == Drive(config, ops, w, State(visited, pending), left - 1);
        } else {
          assert Drive(config, ops, w, before, left) == State(visited, pending);
        }
        left := left - 1;
      }
    }

    /** `start`: with a valid configuration, map the file types to media
        types, seed the start URLs and run batches while entries remain (at
        most `rounds` of them), then mark the route done. `visited` and
        `pending` carry over from earlier calls. */
    method Start(message: Option<Config>, ops: UrlOps, mimeMap: map<string, string>,
                 work: (Worker.TaskConfig, string) -> Worker.TaskOutput, rounds: nat)
      returns (outcome: StartOutcome)
      requires Valid()
      modifies this
      ensures Valid()
      ensures message.None? ==> outcome == NoConfig
      ensures message.Some? && !ValidateConfig(message.value) ==> outcome == InvalidConfig
      ensures outcome.NoConfig? || outcome.InvalidConfig? ==>
        visited == old(visited) && pending == old(pending) && fetched == old(fetched)
      ensures message.Some? && ValidateConfig(message.value) ==>
        outcome.Completed? && config == message.value
        && mimeTypes == MimeTypes(message.value.fileTypes.value, mimeMap)
      ensures message.Some? && ValidateConfig(message.value) ==>
        State(visited, pending)
        == Drive(message.value, ops,
                 WorkFor(work, TaskConfigOf(message.value, MimeTypes(message.value.fileTypes.value, mimeMap))),
                 State(old(visited), Seeded(ops, old(pending), message.value.startUrls.value)), rounds)
      ensures old(visited) <= visited
      ensures outcome.Completed? ==> (outcome.drained <==> rounds > 0 && pending == [])
    {
      if message.None? {
        return NoConfig;
      }
      config := message.value;
      if !ValidateConfig(config) {
        return InvalidConfig;
      }
      mimeTypes := MimeTypes(config.fileTypes.value, mimeMap);
      Seed(ops, config.startUrls.value);
      var more := RunBatches(ops, work, rounds);
      outcome := Completed(!more);
    }
  }
}
