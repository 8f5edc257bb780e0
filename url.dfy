/** The URL handling of the crawler. Parsing, serialising and resolving are
    the algorithms of section 4.4 ("URL parsing") and section 4.5 ("URL
    serializing") of the WHATWG URL Standard; the model leaves them
    uninterpreted and takes them as parameters. Only the crawler's own string
    post-processing is concrete. */
module Url {
  import opened Wrappers
  import Text

  /** The parts of a parsed URL record this model looks at. */
  datatype UrlRecord = UrlRecord(
    scheme: string,
    hostname: string,
    path: string,
    query: Option<string>,
    fragment: Option<string>)

  /** The URL Standard's algorithms as the crawler uses them:
      `parse(s)` is `new URL(s)` (None when the constructor throws),
      `serialize(r)` is `r.href`, and `resolve(link, base)` is
      `new URL(link, base).href` (None when the constructor throws). */
  datatype UrlOps = UrlOps(
    parse: string -> Option<UrlRecord>,
    serialize: UrlRecord -> string,
    resolve: (string, string) -> Option<string>)

  /** `new URL(s).hostname`, or None when `s` does not parse. */
  function Hostname(ops: UrlOps, s: string): (h: Option<string>)
    ensures h.Some? <==> ops.parse(s).Some?
  {
    match ops.parse(s)
    case None => None
    case Some(r) => Some(r.hostname)
  }

  /** `_normalizeUrl` (custom/web_scraper/scraper.js): clear the fragment,
      serialise, and drop every trailing `/`; input that does not parse
      comes back unchanged. */
  function Normalize(ops: UrlOps, u: string): (r: string)
    ensures ops.parse(u).None? ==> r == u
    ensures ops.parse(u).Some? ==> r == [] || r[|r| - 1] != '/'
  {
    match ops.parse(u)
    case None => u
    case Some(rec) => Text.StripTrailingSlashes(ops.serialize(rec.(fragment := None)))
  }

  /** Two URLs that parse to records differing only in their fragment have
      the same normal form: the fragment never reaches the result. */
  lemma NormalizeIgnoresFragment(ops: UrlOps, u: string, v: string)
    requires ops.parse(u).Some? && ops.parse(v).Some?
    requires ops.parse(u).value.(fragment := None) == ops.parse(v).value.(fragment := None)
    ensures Normalize(ops, u) == Normalize(ops, v)
  {
  }

  /** The normal form of a parseable URL is the fragment-free
      serialisation minus a run of trailing slashes only, and stripping
      again changes nothing. */
  lemma NormalizeStripsOnlySlashes(ops: UrlOps, u: string)
    requires ops.parse(u).Some?
    ensures var href := ops.serialize(ops.parse(u).value.(fragment := None));
      var r := Normalize(ops, u);
      r <= href && (forall i :: |r| <= i < |href| ==> href[i] == '/')
      && Text.StripTrailingSlashes(r) == r
  {
    var href := ops.serialize(ops.parse(u).value.(fragment := None));
    Text.StripTrailingSlashesIdempotent(href);
  }
}
