# Web crawler and file-to-message transform, modelled in Dafny

This project models the crawl engine of a message-routing server's web
scraper and its file-to-message transform:

- **Coordinator** (`custom/web_scraper/scraper.js`). It validates the crawl
  configuration and maps the file-type labels to media types. It seeds a
  frontier of `{url, depth, hostDepth}` entries from the start URLs, then
  runs batches until the frontier is empty. A batch drains up to twice the
  concurrency entries. Each drained entry passes the page-depth and
  already-visited gates and is marked visited before the worker runs. The
  links a worker returns from an HTML page are enqueued when they stay
  within the host-hop budget or land on an allowed domain. URLs are
  normalised: no fragment and no trailing slashes.
- **Worker task** (`custom/web_scraper/worker.js`). It authenticates with a
  stored or freshly obtained cookie header and fetches the page. It rejects
  error statuses and media types that were not asked for. In save mode it
  saves the body; in log mode it logs the URL. From an HTML page it
  collects the distinct anchor `href`s.
- **File-to-message transform** (`custom/filektl/messagektl.js`). It
  derives a file name and the `tag_`/`island_` labels from a file path and
  emits one message marked done for its route.

Layout, one module per file:

| file | module | what |
|---|---|---|
| `wrappers.dfy` | `Wrappers` | `Option`, `Result` |
| `text.dfy` | `Text` | the JavaScript string operations the core relies on: `split`, `join`, `trim`, `toLowerCase` (ASCII), `path.basename`, the trailing-slash strip, `[...new Set(xs)]` |
| `url.dfy` | `Url` | URL parsing, serialising and resolving as uninterpreted parameters; `_normalizeUrl` |
| `worker.dfy` | `Worker` | the worker task, with the network, the login browser, the file system and the HTML tokeniser as parameters and the writes returned as a list of effects |
| `crawl_config.dfy` | `CrawlConfig` | the configuration, `_validateConfig`, the media-type mapping, the per-task configuration |
| `frontier.dfy` | `Frontier` | the frontier policy as functions on values, with the lemmas about it |
| `scraper.dfy` | `Scraper` | the `Crawler` class: `visited` and `pending` updated in place by `start`, `runBatch` and `processUrl`; each method that changes them is proved to leave them equal to a `Frontier` function of the old state (`Seeded`, `Enqueue`, `FoldResult`, `GateChunk`, `FoldAll`, `Batch`, `Drive`) |
| `messagektl.dfy` | `MessageKtl` | the file-to-message transform and the message container |

The coordinator's module-level `visited` and `pending` sets become the
fields of `Scraper.Crawler`. A pending entry is a `Task` triple; the
source's JSON text of the triple is equal exactly when the triples are. The
insertion-ordered `Set` is a duplicate-free sequence. `Crawler.Valid()`
states three things: `pending` holds no entry twice, no URL was fetched
twice, and `visited` is exactly the set of fetched URLs. Ghost logs record
what was fetched and drained.

Some consequences of the code that the model makes explicit:

- A `maxPageDepth` of `0` is falsy in JavaScript, so it sets no page-depth
  limit (`Frontier.ZeroPageDepthIsNoLimit`).
- The login flow is started at the task's own URL
  (`custom/web_scraper/worker.js:43`).
- `visited` and `pending` live at module level, so they carry over from
  one `start` call to the next.
- A missing or invalid configuration returns before the route is marked
  done.
- A missing `allowedDomains` makes `includes` throw for every link. The
  per-link `catch` then drops each link, so nothing is enqueued
  (`Frontier.HostPermitted`).
- Distinct URLs can share a saved file name (`Worker.SaveNameCollides`).

## Model

| member | source | states |
|---|---|---|
| Text.StripTrailingSlashesIdempotent | custom/web_scraper/scraper.js:41 | stripping trailing slashes a second time changes nothing |
| Url.Hostname | custom/web_scraper/scraper.js:73 | a host name exists exactly when the URL parses |
| Url.Normalize | custom/web_scraper/scraper.js:37-43 | unparseable input comes back unchanged; a parseable URL's normal form has no trailing `/` |
| Url.NormalizeIgnoresFragment | custom/web_scraper/scraper.js:40 | URLs whose records differ only in the fragment normalise to the same text |
| Url.NormalizeStripsOnlySlashes | custom/web_scraper/scraper.js:39-41 | the normal form is a prefix of the fragment-free serialisation; only `/` is cut off; normalising is stable under a second strip |
| CrawlConfig.ValidateConfig | custom/web_scraper/scraper.js:95-96 | valid iff start URLs and file types are present, `maxHostDepth` is set (0 allowed), concurrency is set and non-zero, and the chosen mode's output path is a non-empty string |
| CrawlConfig.MimeTypes | custom/web_scraper/scraper.js:17 | one media type per label, in order; a label whose lower-cased form the map sends to a non-empty value is replaced by that value; a label the map does not know, or sends to the falsy `""`, passes through unchanged |
| Frontier.ZeroPageDepthIsNoLimit | custom/web_scraper/scraper.js:59 | with `maxPageDepth` 0 every depth passes the gate and every page may have its links enqueued |
| Frontier.SeededSpec | custom/web_scraper/scraper.js:23-26 | seeding keeps the old entries in front; it adds `(normalize(u), 0, 0)` for every start URL and nothing else; it never duplicates an entry |
| Frontier.GateChunkVisits | custom/web_scraper/scraper.js:58-61 | gating adds to `visited` exactly the dispatched URLs; each is new and none is dispatched twice |
| Frontier.GateChunkCovers | custom/web_scraper/scraper.js:58-61 | every dispatched task is a drained entry with its URL normalised and is not beyond a set `maxPageDepth`; every drained entry is beyond the page depth or has its URL in `visited` after the batch's gating |
| Frontier.GateChunkFirstWins | custom/web_scraper/scraper.js:58-61 | `visited` is tested at each entry's own turn: an entry within the page depth whose URL is not visited before the chunk, and which no earlier entry within the page depth shares, is dispatched, so the first such entry for a URL wins |
| Frontier.ChildOf | custom/web_scraper/scraper.js:76-79 | a link yields an entry exactly when it resolves and its host name parses; the entry is one page deeper; its host depth is unchanged on the same host and one more on another host |
| Frontier.Enqueue | custom/web_scraper/scraper.js:81-88 | `pending` grows exactly when the child is admissible and not already pending, and then by exactly that entry at the end |
| Frontier.AdmittedTaskShape | custom/web_scraper/scraper.js:82-83 | every entry an admissible link yields is unvisited and one page deeper than its parent |
| Frontier.FoldLinksPrefix | custom/web_scraper/scraper.js:84-85 | folding a page's links keeps the old entries in front, in order, and adds no entry that is already pending |
| Frontier.FoldLinksSound | custom/web_scraper/scraper.js:74-88 | every entry the fold adds is the entry of an admissible link of the page |
| Frontier.FoldLinksComplete | custom/web_scraper/scraper.js:74-88 | every admissible link's entry is pending after the fold |
| Frontier.FoldLinksSpec | custom/web_scraper/scraper.js:74-90 | folding a page's links keeps the old entries in front; every added entry is an admissible link's entry; every admissible link's entry ends up pending; no entry is doubled |
| Frontier.FoldResultSpec | custom/web_scraper/scraper.js:67-73 | a result with an error, a non-HTML type, no links, a page at the depth limit or an unparseable page URL enqueues nothing; otherwise its links are folded in as above |
| Frontier.FoldAllSpec | custom/web_scraper/scraper.js:47-53 | folding every dispatched result keeps the old entries in front; added entries are unvisited and one page deeper than a dispatched task; no entry is doubled |
| Frontier.BatchSize | custom/web_scraper/scraper.js:46 | at most the queue length; for a positive concurrency, twice the concurrency clamped to the queue length |
| Frontier.BatchSpec | custom/web_scraper/scraper.js:45-55 | a batch removes exactly the first `BatchSize` entries and keeps the rest in front, in order; `visited` only grows; added entries are unvisited; the queue stays duplicate-free |
| Frontier.BatchOfEmptyQueue | custom/web_scraper/scraper.js:46-54 | a batch over an empty queue changes neither `visited` nor `pending` |
| Frontier.DriveSpec | custom/web_scraper/scraper.js:28 | over any number of batches `visited` only grows, a duplicate-free queue stays duplicate-free, and an empty queue is left as it is |
| Scraper.FetchLogExtends | custom/web_scraper/scraper.js:60-61 | appending new, distinct visited URLs keeps the fetch log duplicate-free and its set equal to `visited` |
| Scraper.Crawler.constructor | custom/web_scraper/scraper.js:7 | empty `visited` and `pending` |
| Scraper.Crawler.Seed | custom/web_scraper/scraper.js:23-26 | the seeding loop leaves `pending` equal to `Frontier.Seeded` of the old queue and keeps the class invariant |
| Scraper.Crawler.EnqueueLink | custom/web_scraper/scraper.js:75-89 | one iteration of the link loop leaves `pending` equal to `Frontier.Enqueue` of the old queue |
| Scraper.Crawler.ProcessResult | custom/web_scraper/scraper.js:67-90 | the link loop leaves `pending` equal to `Frontier.FoldResult` of the old queue |
| Scraper.Crawler.GateAll | custom/web_scraper/scraper.js:57-61 | the gating loop leaves `visited` and the dispatched tasks equal to `Frontier.GateChunk`; the fetch and drain logs grow by exactly the dispatched URLs and the drained entries |
| Scraper.Crawler.FoldAllResults | custom/web_scraper/scraper.js:53 | the results are folded in dispatch order: `pending` equals `Frontier.FoldAll` |
| Scraper.Crawler.RunBatch | custom/web_scraper/scraper.js:45-55 | the new `visited` and `pending` are `Frontier.Batch` of the old ones; the result is whether entries remain; the class invariant is kept |
| Scraper.Crawler.RunBatches | custom/web_scraper/scraper.js:28 | the batch loop leaves `visited` and `pending` equal to `Frontier.Drive` of the old state; it reports the queue drained exactly when some batch ran and the queue is empty; the class invariant is kept |
| Scraper.Crawler.Start | custom/web_scraper/scraper.js:9-35 | no configuration or an invalid one changes nothing and does not complete the route; a valid one installs the configuration and the `MimeTypes` media types, and leaves `visited` and `pending` equal to `Frontier.Drive` applied to the old `visited` and the old queue seeded with the start URLs (`Frontier.Seeded`), with the worker fixed to that configuration; `drained` holds exactly when a batch ran and the queue is empty |
| Worker.BuildCookieHeader | custom/web_scraper/worker.js:100-103 | undefined exactly for a non-array; `""` for an empty array; one cookie gives `name=value` |
| Worker.CookieHeaderFalsyIff | custom/web_scraper/worker.js:42-43 | the header is falsy exactly for a non-array or an empty array, which is when the login flow runs |
| Worker.CookieHeaderAppend | custom/web_scraper/worker.js:102 | one more cookie appends `"; name=value"`: pairs keep array order |
| Worker.Authenticate | custom/web_scraper/worker.js:38-44 | only a protected task reads a cookie file; the login runs exactly when the stored header is falsy; a login's cookies are persisted for the host; otherwise the stored header is used; the step fails exactly when the URL or the cookie file does not parse or the login throws, and a failed login writes nothing (the login taken as all-or-nothing, see below) |
| Worker.LoginReusedForSameHost | custom/web_scraper/worker.js:40-43 | after a login that yields cookies, the next task on the same host does not log in and sends the same header |
| Worker.EmptyLoginRepeats | custom/web_scraper/worker.js:42-43 | a login that yields no cookies is repeated by the next task on the same host |
| Worker.MediaType | custom/web_scraper/worker.js:51 | no `content-type` header gives `""` |
| Worker.MediaTypeOfHeader | custom/web_scraper/worker.js:51 | the media type is the slice of the header before its first `;`, with only white space removed around it; it neither starts nor ends with white space |
| Worker.Extension | custom/web_scraper/worker.js:63-65 | `html` iff the type contains `html`; else `pdf` iff it contains `pdf`; else `doc` iff it contains `msword`; else `bin` |
| Worker.ExtensionOfXhtml | custom/web_scraper/worker.js:63 | `application/xhtml+xml` is saved as `html` |
| Worker.SaveName | custom/web_scraper/worker.js:68 | the URL with each `/` replaced by `_`, a dot, then the extension |
| Worker.SaveNameCollides | custom/web_scraper/worker.js:68 | `a/b` and `a_b` get the same saved name |
| Worker.AnchorHrefsMembers | custom/web_scraper/worker.js:82-86 | a string is collected exactly when an `a` tag carries it as a non-empty `href` |
| Text.DedupSpec | custom/web_scraper/worker.js:90 | de-duplication keeps exactly the same elements, holds none twice, and orders them by first occurrence |
| Worker.CollectLinks | custom/web_scraper/worker.js:78-91 | the links are the de-duplicated anchor `href`s: duplicate-free, and exactly the collected strings |
| Worker.Respond | custom/web_scraper/worker.js:46-93 | status ≥ 400 gives `HTTP error: <status>`; a type not asked for gives `MIME not allowed: <type>`; a failing body gives `Body is unusable: <msg>`; otherwise the body is persisted (save or log mode), `savedFile` names the path, and only `text/html` yields links |
| Worker.RunTask | custom/web_scraper/worker.js:34-98 | a throw while authenticating or fetching gives `Body is unusable: <msg>` with only the authentication's writes; otherwise the response is handled as in `Respond`, after the authentication's writes |
| Worker.PersistOnlyAccepted | custom/web_scraper/worker.js:67-76 | a rejected response writes nothing; an accepted one writes the body once in save mode; in log mode it appends one URL line, creating the log first exactly when it is missing |
| Worker.LinksOnlyFromHtml | custom/web_scraper/worker.js:78-91 | links come only from an accepted `text/html` body; they are duplicate-free and exactly the non-empty anchor `href`s |
| Text.TrimSlice | custom/web_scraper/worker.js:51 | `trim` keeps a contiguous slice and removes only white space around it |
| MessageKtl.FileNameSpec | custom/filektl/messagektl.js:14-15 | a path without `.` gives `""`; otherwise the file name is the base name of the text before the last `.` |
| Text.BasenameShape | custom/filektl/messagektl.js:15 | the base name holds no `/` and is the last `/`-separated part of the path, trailing slashes ignored |
| Text.SplitFieldsFree | custom/filektl/messagektl.js:14 | no field of a split holds the separator |
| Text.SplitJoin | custom/filektl/messagektl.js:14-15 | splitting on a character and joining with it gives the text back; no field holds the separator |
| MessageKtl.LastSuffixSpec | custom/filektl/messagektl.js:16-19 | none exactly when no field starts with the prefix; otherwise the rest of a field that does, with no later field starting with it |
| MessageKtl.LastSuffixAt | custom/filektl/messagektl.js:16-19 | when a field starts with the prefix and no later one does, the result is the rest of that field |
| MessageKtl.ScanFields | custom/filektl/messagektl.js:16-19 | the loop leaves the tag and the island override equal to the rest of the last `tag_` and `island_` field |
| MessageKtl.ContentOfSpec | custom/filektl/messagektl.js:14-23 | the file name is `FileName` of the path; the tag is absent exactly when no field starts with `tag_`, and otherwise is the rest of the last such field; without an `island_` field the application id is the configured island, and any other id is a non-empty override from the last `island_` field; the upload path is the configured one when non-empty and `uploads` otherwise; encoding is `base64`; the comment names the file |
| MessageKtl.ContentOfIsland | custom/filektl/messagektl.js:16-22 | the last `island_` field with a non-empty rest sets the application id to that rest; a bare last `island_` field leaves the configured island |
| MessageKtl.Start | custom/filektl/messagektl.js:12-26 | exactly one message is added to the container: the content for the path, marked done for this route only |

## Left out

- URL parsing, serialising, resolving and host-name extraction follow the WHATWG URL Standard. They are uninterpreted parameters (`Url.UrlOps`). Whether a normal form normalises to itself depends on them; only the idempotence of the trailing-slash strip is proved.
- Url.Normalize: the contract does not state idempotence of the whole normalisation, because that depends on re-parsing a serialisation under the uninterpreted URL operations.
- Worker.Authenticate: the login flow is treated as all-or-nothing: it either returns the cookies, which are then saved, or throws having saved nothing. In the source the cookie file is written before `browser.close()` (custom/web_scraper/worker.js:29-30), so a close that rejects fails the task after the file is saved, and the next task on that host reuses it; the model does not capture that path and logs in again.
- Network and browser I/O are parameters of `Worker.Env`: the GET request, the login browser session and streaming the body. The body arrives whole or as a failure message.
- The HTML tokeniser is a parameter: its output is a sequence of open-tag events with the tag name and `href`.
- File-system effects are returned as a list of `Worker.Effect`s, not performed. Write failures, `mkdirSync` of the output folder, and the cookie file's pretty-printed JSON are not modelled. A cookie file that cannot be read or parsed is one `Unparseable` case.
- The worker pool and `Promise.all` are sequential in the model. A batch first gates every drained entry in order; this part is synchronous in the source. Then it folds the worker results in chunk order. The source folds them in completion order, so the order of entries that different pages add within one batch may differ.
- The pool's own validation of its thread count is not part of this model. A pool that refuses the configured concurrency would throw before seeding, and the route would still be marked done.
- Scraper.Crawler.Start: the driver loop runs at most `rounds` batches, because a crawl need not end (the URL oracle can keep producing fresh links). A run that stops at the bound reports `drained == false`.
- Scraper.Crawler.Start: `utils.expandProperty` on the output paths is taken as the identity; that utility is not part of this model.
- The contents of `conf/mimeMap.json` are not part of this model; the map is a parameter of `Start`.
- Lower-casing of file-type labels is ASCII-only; JavaScript's full Unicode `toLowerCase` is not modelled.
- Logging (`LOG.info`, `LOG.error`) and `setGCEligible` are left out; they do not affect state.
- The `content-type` header is one string; a header given as an array of values is not modelled.
- `path.join` is a parameter. Only the saved file's name is concrete.
- A cookie is reduced to its `name` and `value`, the only fields the source reads.
- MessageKtl.Start: mustache rendering of the knowledge and its `Buffer` base64 encoding are left out. The base64 text is a parameter. `MESSAGE_FACTORY.newMessage` is not part of this model; a new message starts with no routes done.
- A numeric `concurrency` is an integer in the model; fractional or string values are not modelled.

