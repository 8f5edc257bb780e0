/** The crawl request's configuration as custom/web_scraper/scraper.js reads
    it: the `_validateConfig` check, the file-type labels mapped to media
    types, and the part of it handed to each worker task. JavaScript
    truthiness is spelled out: a missing field is `None`, and `0` and `""`
    are falsy while an empty array is truthy. */
module CrawlConfig {
  import opened Wrappers
  import opened Text
  import Worker

  datatype Config = Config(
    startUrls: Option<seq<string>>,
    maxPageDepth: Option<int>,
    maxHostDepth: Option<int>,
    allowedDomains: Option<seq<string>>,
    concurrency: Option<int>,
    fileTypes: Option<seq<string>>,
    downloadFiles: bool,
    outputFolder: Option<string>,
    urlLogFilePath: Option<string>,
    protected: bool)

  /** Truthiness of an optional number: `undefined` and `0` are falsy. */
  predicate TruthyInt(n: Option<int>) {
    n.Some? && n.value != 0
  }

  /** `_validateConfig`: start URLs and file types present (an empty array
      counts), `maxHostDepth` neither `undefined` nor `null` (so `0` passes),
      a non-zero concurrency, and the output of the chosen mode named. */
  function ValidateConfig(c: Config): (ok: bool)
    ensures ok <==>
      c.startUrls.Some? && c.maxHostDepth.Some?
      && c.concurrency.Some? && c.concurrency.value != 0
      && c.fileTypes.Some?
      && (c.downloadFiles ==> c.outputFolder.Some? && c.outputFolder.value != "")
      && (!c.downloadFiles ==> c.urlLogFilePath.Some? && c.urlLogFilePath.value != "")
  {
    c.startUrls.Some? && c.maxHostDepth.Some? && TruthyInt(c.concurrency) && c.fileTypes.Some?
    && TruthyString(if c.downloadFiles then c.outputFolder else c.urlLogFilePath)
  }

  /** `fileTypes.map(type => mimeMap[type.toLowerCase()] || type)`: a label
      whose lower-cased form the map knows (with a non-empty value) becomes
      that media type; any other label (unknown, or mapped to `""`, which is
      falsy) passes through unchanged. Together the clauses fix every entry. */
  function MimeTypes(fileTypes: seq<string>, mimeMap: map<string, string>): (r: seq<string>)
    ensures |r| == |fileTypes|
    ensures forall i :: 0 <= i < |r| ==> r[i] == fileTypes[i] || r[i] in mimeMap.Values
    ensures forall i :: 0 <= i < |r| && (AsciiLower(fileTypes[i]) !in mimeMap || mimeMap[AsciiLower(fileTypes[i])] == "") ==>
      r[i] == fileTypes[i]
    ensures forall i :: 0 <= i < |r| && AsciiLower(fileTypes[i]) in mimeMap && mimeMap[AsciiLower(fileTypes[i])] != "" ==>
      r[i] == mimeMap[AsciiLower(fileTypes[i])]
    ensures forall i :: 0 <= i < |r| && r[i] != fileTypes[i] ==>
      AsciiLower(fileTypes[i]) in mimeMap && r[i] == mimeMap[AsciiLower(fileTypes[i])]
  {
    seq(|fileTypes|, i requires 0 <= i < |fileTypes| =>
      var key := AsciiLower(fileTypes[i]);
      if key in mimeMap && mimeMap[key] != "" then mimeMap[key] else fileTypes[i])
  }

  /** The configuration object passed to each worker task. A folder the
      configuration leaves out reads as `""`; validation guarantees the one
      the chosen mode uses is present. */
  function TaskConfigOf(c: Config, mimeTypes: seq<string>): Worker.TaskConfig {
    Worker.TaskConfig(
      c.protected,
      mimeTypes,
      c.downloadFiles,
      if c.outputFolder.Some? then c.outputFolder.value else "",
      if c.urlLogFilePath.Some? then c.urlLogFilePath.value else "")
  }
}
