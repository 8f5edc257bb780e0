/** The per-task executor of custom/web_scraper/worker.js: authenticate with
    a stored or freshly obtained cookie header, fetch, reject by HTTP status,
    classify the media type, filter it, persist the body (save mode) or the
    URL (log mode), and collect the page's anchor links.

    The network, the browser login, the file system queries, `path.join`
    and the HTML tokeniser are parameters (`Env`); what the task writes is
    returned as a list of `Effect`s instead of being performed. */
module Worker {
  import opened Wrappers
  import opened Text
  import Url

  newtype byte = x: int | 0 <= x < 256

  /** One cookie as the browser reports it: only `name` and `value` are read. */
  datatype Cookie = Cookie(name: string, value: string)

  /** What `JSON.parse` yields for a cookie file: an array of cookies, or any
      other JSON value (`null` included). */
  datatype Json = JArray(cookies: seq<Cookie>) | JOther

  /** A domain's cookie file as the task finds it on disk. */
  datatype CookieFile = NoFile | Unparseable(message: string) | Parsed(json: Json)

  /** One open-tag event of the HTML tokeniser: the tag name and its `href`
      attribute, if any. */
  datatype OpenTag = OpenTag(name: string, href: Option<string>)

  /** The HTTP response: status, the `content-type` header if present, and the
      body, whose streaming may fail with a message. */
  datatype Response = Response(statusCode: int, contentType: Option<string>, body: Result<seq<byte>>)

  /** The part of the crawl configuration the task reads. */
  datatype TaskConfig = TaskConfig(
    protected: bool,
    mimeTypes: seq<string>,
    downloadFiles: bool,
    outputFolder: string,
    urlLogFilePath: string)

  /** The task's result object. `None` stands for JavaScript `null`. */
  datatype TaskOutput = TaskOutput(
    url: string,
    mimeType: Option<string>,
    links: seq<string>,
    savedFile: Option<string>,
    error: Option<string>)

  /** A file-system write the task performs. */
  datatype Effect =
    | StoreCookies(domain: string, cookies: seq<Cookie>)  // the login flow persists the domain's cookie file
    | WriteFile(path: string, data: seq<byte>)            // fs.writeFileSync of the body
    | CreateEmpty(path: string)                           // fs.writeFileSync(path, "")
    | AppendText(path: string, text: string)              // fs.appendFileSync

  /** Everything outside the task's own logic. `login(url)` is the browser
      login flow started at `url`, yielding the session's cookies or
      throwing; `fetch(url, cookie)` is the GET request with that `Cookie`
      header value; `fileExists` is `fs.existsSync`; `joinPath` is `path.join`;
      `openTags(body)` is the tokeniser's open-tag events for the decoded body. */
  datatype Env = Env(
    url: Url.UrlOps,
    login: string -> Result<seq<Cookie>>,
    fetch: (string, string) -> Result<Response>,
    fileExists: string -> bool,
    joinPath: (string, string) -> string,
    openTags: seq<byte> -> seq<OpenTag>)

  /** `${name}=${value}` */
  function CookiePair(c: Cookie): string {
    c.name + "=" + c.value
  }

  /** `buildCookieHeader`: undefined for anything but an array, otherwise the
      `name=value` pairs in array order joined by `"; "` (the cookie-string
      of section 4.2.1 of RFC 6265). */
  function BuildCookieHeader(j: Json): (h: Option<string>)
    ensures h.None? <==> j.JOther?
    ensures j == JArray([]) ==> h == Some("")
    ensures j.JArray? && |j.cookies| == 1 ==> h == Some(CookiePair(j.cookies[0]))
  {
    match j
    case JOther => None
    case JArray(cs) => Some(Join(seq(|cs|, i requires 0 <= i < |cs| => CookiePair(cs[i])), "; "))
  }

  /** The header built from a cookie array is falsy exactly when the value
      is not an array or the array is empty; a non-empty array always gives
      a non-empty header, since every pair holds `=`. */
  lemma {:induction false} CookieHeaderFalsyIff(j: Json)
    ensures !TruthyString(BuildCookieHeader(j)) <==> (j.JOther? || j.cookies == [])
  {
    if j.JArray? && j.cookies != [] {
      var cs := j.cookies;
      var pairs := seq(|cs|, i requires 0 <= i < |cs| => CookiePair(cs[i]));
      var n := |pairs|;
      assert |pairs[n - 1]| >= 1;
      if n > 1 {
        assert Join(pairs, "; ") == Join(pairs[..n - 1], "; ") + "; " + pairs[n - 1];
      }
    }
  }

  /** Adding one cookie to the array appends `"; name=value"` to a
      non-empty array's header: the pairs keep array order. */
  lemma CookieHeaderAppend(cs: seq<Cookie>, c: Cookie)
    requires cs != []
    ensures BuildCookieHeader(JArray(cs + [c])).value
         == BuildCookieHeader(JArray(cs)).value + "; " + CookiePair(c)
  {
    var ds := cs + [c];
    var pairs := seq(|ds|, i requires 0 <= i < |ds| => CookiePair(ds[i]));
    assert pairs[..|cs|] == seq(|cs|, i requires 0 <= i < |cs| => CookiePair(cs[i]));
  }

  /** The cookie file of `domain`, absent when the jar has none. */
  function CookieFileOf(jar: map<string, CookieFile>, domain: string): CookieFile {
    if domain in jar then jar[domain] else NoFile
  }

  /** The header stored for a domain: `JSON.parse(null)` gives `null` when
      the file is missing, which is not an array. */
  function StoredHeader(f: CookieFile): Option<string>
    requires !f.Unparseable?
  {
    match f
    case NoFile => None
    case Parsed(j) => BuildCookieHeader(j)
  }

  /** The outcome of the authentication step: whether the login flow ran,
      the cookie header (or the message of what threw), and what was written. */
  datatype Auth = Auth(loginAttempted: bool, header: Result<Option<string>>, effects: seq<Effect>)

  /** The authentication prefix of the task. Only a protected configuration
      reads the domain's cookie file; a falsy stored header starts the login
      flow, whose cookies are persisted for the domain. It fails, writing
      nothing, exactly when the URL does not parse, the cookie file does not
      parse, or the login throws. */
  function Authenticate(url: string, cfg: TaskConfig, env: Env, jar: map<string, CookieFile>): (a: Auth)
    ensures !cfg.protected ==> a == Auth(false, Ok(None), [])
    ensures a.loginAttempted <==>
      (cfg.protected && Url.Hostname(env.url, url).Some?
       && !CookieFileOf(jar, Url.Hostname(env.url, url).value).Unparseable?
       && !TruthyString(StoredHeader(CookieFileOf(jar, Url.Hostname(env.url, url).value))))
    ensures !a.loginAttempted ==> a.effects == []
    ensures a.loginAttempted && a.header.Ok? ==>
      env.login(url).Ok? && a.effects == [StoreCookies(Url.Hostname(env.url, url).value, env.login(url).value)]
      && a.header.value == BuildCookieHeader(JArray(env.login(url).value))
    ensures cfg.protected && !a.loginAttempted && a.header.Ok? ==>
      Url.Hostname(env.url, url).Some?
      && var f := CookieFileOf(jar, Url.Hostname(env.url, url).value);
         !f.Unparseable? && a.header.value == StoredHeader(f)
    ensures a.header.Err? <==>
      cfg.protected
      && (Url.Hostname(env.url, url).None?
          || CookieFileOf(jar, Url.Hostname(env.url, url).value).Unparseable?
          || (a.loginAttempted && env.login(url).Err?))
    ensures a.header.Err? ==> a.effects == []
  {
    if !cfg.protected then Auth(false, Ok(None), [])
    else match Url.Hostname(env.url, url)
      case None => Auth(false, Err("Invalid URL"), [])
      case Some(domain) =>
        var file := CookieFileOf(jar, domain);
        if file.Unparseable? then Auth(false, Err(file.message), [])
        else
          var stored := StoredHeader(file);
          if TruthyString(stored) then Auth(false, Ok(stored), [])
          else match env.login(url)
            case Err(m) => Auth(true, Err(m), [])
            case Ok(cs) => Auth(true, Ok(BuildCookieHeader(JArray(cs))), [StoreCookies(domain, cs)])
  }

  /** The cookie jar after the task's writes. */
  function ApplyCookies(jar: map<string, CookieFile>, effects: seq<Effect>): map<string, CookieFile>
    decreases |effects|
  {
    if effects == [] then jar
    else
      match effects[0]
      case StoreCookies(d, cs) => ApplyCookies(jar[d := Parsed(JArray(cs))], effects[1..])
      case _ => ApplyCookies(jar, effects[1..])
  }

  /** A login that yields at least one cookie is reused: a later task against
      the same host finds the persisted file, does not log in again, and sends
      the same header. */
  lemma LoginReusedForSameHost(u1: string, u2: string, cfg: TaskConfig, env: Env, jar: map<string, CookieFile>)
    requires Authenticate(u1, cfg, env, jar).loginAttempted
    requires env.login(u1).Ok? && env.login(u1).value != []
    requires Url.Hostname(env.url, u2) == Url.Hostname(env.url, u1)
    ensures var a1 := Authenticate(u1, cfg, env, jar);
      var a2 := Authenticate(u2, cfg, env, ApplyCookies(jar, a1.effects));
      !a2.loginAttempted && a2.header == a1.header
  {
    var d := Url.Hostname(env.url, u1).value;
    var cs := env.login(u1).value;
    var a1 := Authenticate(u1, cfg, env, jar);
    assert a1.effects == [StoreCookies(d, cs)];
    assert ApplyCookies(jar, a1.effects) == jar[d := Parsed(JArray(cs))];
    CookieHeaderFalsyIff(JArray(cs));
  }

  /** A login that yields no cookies is not remembered: the next task against
      the same host runs the login flow again. */
  lemma EmptyLoginRepeats(u1: string, u2: string, cfg: TaskConfig, env: Env, jar: map<string, CookieFile>)
    requires Authenticate(u1, cfg, env, jar).loginAttempted
    requires env.login(u1) == Ok([])
    requires Url.Hostname(env.url, u2) == Url.Hostname(env.url, u1)
    ensures Authenticate(u2, cfg, env, ApplyCookies(jar, Authenticate(u1, cfg, env, jar).effects)).loginAttempted
  {
    var d := Url.Hostname(env.url, u1).value;
    var a1 := Authenticate(u1, cfg, env, jar);
    assert a1.effects == [StoreCookies(d, [])];
    assert ApplyCookies(jar, a1.effects) == jar[d := Parsed(JArray([]))];
  }

  /** `cookieHeader || ''`: the Cookie header value actually sent. */
  function CookieValue(h: Option<string>): string {
    if h.Some? then h.value else ""
  }

  /** `content-type?.split(';')[0].trim() || ''`: the media type without
      parameters (section 8.3.1 of RFC 9110), `""` without the header. */
  function MediaType(contentType: Option<string>): (m: string)
    ensures contentType.None? ==> m == ""
  {
    match contentType
    case None => ""
    case Some(h) => Trim(Split(h, ';')[0])
  }

  /** `m` is `h[a..b]`, no `;` comes before `b`, and only white space lies
      before `a` and between `b` and the first `;` (or the end). */
  predicate TrimmedBeforeSemicolon(h: string, m: string, a: int, b: int) {
    0 <= a <= b <= |h| && m == h[a..b] && ';' !in h[..b]
    && (forall i :: 0 <= i < a ==> IsJsSpace(h[i]))
    && (forall i :: b <= i < |h| && ';' !in h[..i + 1] ==> IsJsSpace(h[i]))
  }

  /** The media type is a slice of the header before its first `;`, with
      only white space cut away on either side, and neither starts nor ends
      with white space. */
  lemma MediaTypeOfHeader(h: string)
    ensures ';' !in MediaType(Some(h))
    ensures exists a, b :: TrimmedBeforeSemicolon(h, MediaType(Some(h)), a, b)
    ensures MediaType(Some(h)) == []
            || (!IsJsSpace(MediaType(Some(h))[0]) && !IsJsSpace(MediaType(Some(h))[|MediaType(Some(h))| - 1]))
  {
    var f := Split(h, ';')[0];
    SplitHead(h, ';');
    var a, b := TrimSlice(f);
    FirstFieldSlice(h, f, Trim(f), a, b);
  }

  lemma FirstFieldSlice(h: string, f: string, m: string, a: int, b: int)
    requires f <= h && ';' !in f && (|f| < |h| ==> h[|f|] == ';')
    requires 0 <= a <= b <= |f| && m == f[a..b]
    requires forall i :: 0 <= i < a ==> IsJsSpace(f[i])
    requires forall i :: b <= i < |f| ==> IsJsSpace(f[i])
    ensures TrimmedBeforeSemicolon(h, m, a, b)
    ensures ';' !in m
  {
    forall k | 0 <= k < |m| ensures m[k] != ';' {
      assert m[k] == f[a + k];
    }
    assert h[..b] == f[..b];
    forall i | b <= i < |h| && ';' !in h[..i + 1] ensures IsJsSpace(h[i]) {
      if i < |f| {
        assert h[i] == f[i];
      }
    }
  }

  /** The file extension chosen by media-type family, checked in the order
      html, pdf, msword. */
  function Extension(m: string): (ext: string)
    ensures ext == "html" <==> Contains(m, "html")
    ensures ext == "pdf" <==> !Contains(m, "html") && Contains(m, "pdf")
    ensures ext == "doc" <==> !Contains(m, "html") && !Contains(m, "pdf") && Contains(m, "msword")
    ensures ext == "bin" <==> !Contains(m, "html") && !Contains(m, "pdf") && !Contains(m, "msword")
  {
    if Contains(m, "html") then "html"
    else if Contains(m, "pdf") then "pdf"
    else if Contains(m, "msword") then "doc"
    else "bin"
  }

  /** The family test is a substring test, so `application/xhtml+xml` is
      saved as html, ahead of any other family. */
  lemma ExtensionOfXhtml()
    ensures Extension("application/xhtml+xml") == "html"
  {
    ContainsAt("application/xhtml+xml", "html", 13);
  }

  /** The saved file's name: the URL with every `/` turned into `_`, a dot,
      and the extension. */
  function SaveName(url: string, ext: string): (name: string)
    ensures '/' !in url ==> name == url + "." + ext
    ensures |name| == |url| + 1 + |ext| && name[|url|] == '.' && name[|url| + 1..] == ext
    ensures forall i :: 0 <= i < |url| ==> name[i] == (if url[i] == '/' then '_' else url[i])
  {
    ReplaceChar(url, '/', '_') + "." + ext
  }

  /** Different URLs can share a saved file name: `a/b` and `a_b` both map
      to `a_b`, so the later save overwrites the earlier one. */
  lemma SaveNameCollides()
    ensures SaveName("a/b", "html") == SaveName("a_b", "html")
  {
  }

  /** The `href` of every `a` open tag whose `href` is a non-empty string,
      in document order. */
  function AnchorHrefs(tags: seq<OpenTag>): seq<string>
    decreases |tags|
  {
    if tags == [] then []
    else
      var t := tags[|tags| - 1];
      AnchorHrefs(tags[..|tags| - 1]) + (if IsAnchorHref(t) then [t.href.value] else [])
  }

  predicate IsAnchorHref(t: OpenTag) {
    t.name == "a" && t.href.Some? && t.href.value != ""
  }

  /** A string is collected exactly when some `a` tag carries it as a
      non-empty `href`. */
  lemma {:induction false} AnchorHrefsMembers(tags: seq<OpenTag>, h: string)
    ensures h in AnchorHrefs(tags) <==>
      exists i :: 0 <= i < |tags| && IsAnchorHref(tags[i]) && tags[i].href.value == h
    decreases |tags|
  {
    if tags != [] {
      var init := tags[..|tags| - 1];
      AnchorHrefsMembers(init, h);
      if exists i :: 0 <= i < |init| && IsAnchorHref(init[i]) && init[i].href.value == h {
        var i :| 0 <= i < |init| && IsAnchorHref(init[i]) && init[i].href.value == h;
        assert tags[i] == init[i];
      }
      if exists i :: 0 <= i < |tags| && IsAnchorHref(tags[i]) && tags[i].href.value == h {
        var i :| 0 <= i < |tags| && IsAnchorHref(tags[i]) && tags[i].href.value == h;
        if i < |init| { assert init[i] == tags[i]; }
      }
    }
  }

  /** The parser callback pushes each anchor's `href`; the result is then
      de-duplicated through a `Set`, first occurrence first. */
  method CollectLinks(tags: seq<OpenTag>) returns (links: seq<string>)
    ensures links == Dedup(AnchorHrefs(tags))
    ensures NoDups(links)
    ensures forall h :: h in links <==> h in AnchorHrefs(tags)
  {
    var pushed: seq<string> := [];
    for i := 0 to |tags|
      invariant pushed == AnchorHrefs(tags[..i])
    {
      assert tags[..i + 1][..i] == tags[..i];
      if tags[i].name == "a" && tags[i].href.Some? && tags[i].href.value != "" {
        pushed := pushed + [tags[i].href.value];
      }
    }
    assert tags[..|tags|] == tags;
    links := Dedup(pushed);
    DedupSpec(pushed);
  }

  /** A body was accepted: the status is below 400 and the media type is
      one of the configured ones. */
  predicate Accepted(cfg: TaskConfig, resp: Response) {
    resp.statusCode < 400 && MediaType(resp.contentType) in cfg.mimeTypes
  }

  /** Where an accepted body goes: the saved file in save mode, the URL log
      otherwise. */
  function SavedPath(url: string, cfg: TaskConfig, env: Env, mime: string): string {
    if cfg.downloadFiles then env.joinPath(cfg.outputFolder, SaveName(url, Extension(mime)))
    else cfg.urlLogFilePath
  }

  /** The writes that persist an accepted body: the body itself in save
      mode; in log mode one line holding the URL, creating the log first
      when it does not exist. */
  function Persist(url: string, cfg: TaskConfig, env: Env, mime: string, body: seq<byte>): seq<Effect> {
    var path := SavedPath(url, cfg, env, mime);
    if cfg.downloadFiles then [WriteFile(path, body)]
    else (if env.fileExists(path) then [] else [CreateEmpty(path)]) + [AppendText(path, url + "\n")]
  }

  /** What the task returns and writes once a response has arrived. */
  predicate Responded(url: string, cfg: TaskConfig, env: Env, resp: Response, out: TaskOutput, effects: seq<Effect>) {
    var mime := MediaType(resp.contentType);
    out.url == url
    && (resp.statusCode >= 400 ==>
          out == TaskOutput(url, None, [], None, Some("HTTP error: " + DecimalString(resp.statusCode)))
          && effects == [])
    && (resp.statusCode < 400 && mime !in cfg.mimeTypes ==>
          out == TaskOutput(url, Some(mime), [], None, Some("MIME not allowed: " + mime))
          && effects == [])
    && (Accepted(cfg, resp) && resp.body.Err? ==>
          out == TaskOutput(url, Some(mime), [], None, Some("Body is unusable: " + resp.body.message))
          && effects == [])
    && (Accepted(cfg, resp) && resp.body.Ok? ==>
          out.mimeType == Some(mime) && out.error == None
          && out.savedFile == Some(SavedPath(url, cfg, env, mime))
          && effects == Persist(url, cfg, env, mime, resp.body.value)
          && out.links == (if mime == "text/html" then Dedup(AnchorHrefs(env.openTags(resp.body.value))) else []))
  }

  /** The task from the response on: status check, media-type filter,
      persistence, link extraction. */
  method Respond(url: string, cfg: TaskConfig, env: Env, resp: Response) returns (out: TaskOutput, effects: seq<Effect>)
    ensures Responded(url, cfg, env, resp, out, effects)
  {
    out := TaskOutput(url, None, [], None, None);
    effects := [];
    if resp.statusCode >= 400 {
      out := out.(error := Some("HTTP error: " + DecimalString(resp.statusCode)));
      return;
    }
    var mime := MediaType(resp.contentType);
    out := out.(mimeType := Some(mime));
    if mime !in cfg.mimeTypes {
      out := out.(error := Some("MIME not allowed: " + mime));
      return;
    }
    if resp.body.Err? {
      out := out.(error := Some("Body is unusable: " + resp.body.message));
      return;
    }
    var body := resp.body.value;
    var ext := Extension(mime);
    if cfg.downloadFiles {
      var path := env.joinPath(cfg.outputFolder, SaveName(url, ext));
      effects := effects + [WriteFile(path, body)];
      out := out.(savedFile := Some(path));
    } else {
      var path := cfg.urlLogFilePath;
      if !env.fileExists(path) {
        effects := effects + [CreateEmpty(path)];
      }
      effects := effects + [AppendText(path, url + "\n")];
      out := out.(savedFile := Some(path));
    }
    if mime == "text/html" {
      var links := CollectLinks(env.openTags(body));
      out := out.(links := links);
    }
  }

  /** The exported task function: authenticate, fetch, then respond; any
      throw on the way becomes a "Body is unusable" error. */
  method RunTask(url: string, cfg: TaskConfig, env: Env, jar: map<string, CookieFile>)
    returns (out: TaskOutput, effects: seq<Effect>)
    ensures var a := Authenticate(url, cfg, env, jar);
      a.header.Err? ==>
        out == TaskOutput(url, None, [], None, Some("Body is unusable: " + a.header.message))
        && effects == a.effects
    ensures var a := Authenticate(url, cfg, env, jar);
      a.header.Ok? && env.fetch(url, CookieValue(a.header.value)).Err? ==>
        out == TaskOutput(url, None, [], None,
                          Some("Body is unusable: " + env.fetch(url, CookieValue(a.header.value)).message))
        && effects == a.effects
    ensures var a := Authenticate(url, cfg, env, jar);
      a.header.Ok? && env.fetch(url, CookieValue(a.header.value)).Ok? ==>
        |a.effects| <= |effects| && effects[..|a.effects|] == a.effects
        && Responded(url, cfg, env, env.fetch(url, CookieValue(a.header.value)).value,
                     out, effects[|a.effects|..])
  {
    var a := Authenticate(url, cfg, env, jar);
    if a.header.Err? {
      out := TaskOutput(url, None, [], None, Some("Body is unusable: " + a.header.message));
      effects := a.effects;
      return;
    }
    var response := env.fetch(url, CookieValue(a.header.value));
    if response.Err? {
      out := TaskOutput(url, None, [], None, Some("Body is unusable: " + response.message));
      effects := a.effects;
      return;
    }
    var more;
    out, more := Respond(url, cfg, env, response.value);
    effects := a.effects + more;
    assert effects[|a.effects|..] == more;
  }

  /** A rejected response writes nothing and yields no links; an accepted
      one is persisted exactly once, under the path the result names. */
  lemma PersistOnlyAccepted(url: string, cfg: TaskConfig, env: Env, resp: Response, out: TaskOutput, effects: seq<Effect>)
    requires Responded(url, cfg, env, resp, out, effects)
    ensures !Accepted(cfg, resp) ==> effects == [] && out.links == [] && out.savedFile == None && out.error.Some?
    ensures Accepted(cfg, resp) && resp.body.Ok? ==>
      |effects| >= 1 && out.savedFile.Some?
      && (cfg.downloadFiles ==> effects == [WriteFile(out.savedFile.value, resp.body.value)])
      && (!cfg.downloadFiles ==>
            (effects[|effects| - 1] == AppendText(out.savedFile.value, url + "\n")
             && |effects| <= 2
             && (|effects| == 2 <==> !env.fileExists(out.savedFile.value))))
  {
  }

  /** Links come only from an accepted `text/html` body, and they are the
      distinct non-empty anchor `href`s in order of first appearance. */
  lemma LinksOnlyFromHtml(url: string, cfg: TaskConfig, env: Env, resp: Response, out: TaskOutput, effects: seq<Effect>)
    requires Responded(url, cfg, env, resp, out, effects)
    ensures out.links != [] ==> Accepted(cfg, resp) && resp.body.Ok? && MediaType(resp.contentType) == "text/html"
    ensures NoDups(out.links)
    ensures Accepted(cfg, resp) && resp.body.Ok? && MediaType(resp.contentType) == "text/html" ==>
      (forall h :: h in out.links <==>
        exists i :: 0 <= i < |env.openTags(resp.body.value)| && IsAnchorHref(env.openTags(resp.body.value)[i])
                    && env.openTags(resp.body.value)[i].href.value == h)
  {
    if Accepted(cfg, resp) && resp.body.Ok? && MediaType(resp.contentType) == "text/html" {
      var tags := env.openTags(resp.body.value);
      DedupSpec(AnchorHrefs(tags));
      forall h ensures h in out.links <==>
        exists i :: 0 <= i < |tags| && IsAnchorHref(tags[i]) && tags[i].href.value == h
      {
        AnchorHrefsMembers(tags, h);
      }
    }
  }
}
