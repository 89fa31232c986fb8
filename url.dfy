/** The part of the `url` crate the capsule uses: parsing `gemini://<domain>`,
    `set_path` and `to_string`. A gemini URL is not a "special" URL, so it
    keeps an empty path until one is set. */
module Urls {
  import opened Wrappers

  datatype Url = Url(host: string, path: string)

  datatype UrlError = InvalidDomain

  /** Characters that end or break the authority of a URL. */
  predicate IsDelimiter(c: char) {
    c in {' ', '/', '?', '#', '@', '<', '>', '[', ']', '\\', '^', '|', '"', '\t', '\n', '\r'}
  }

  /** The domains the model accepts: non-empty and free of URL delimiters.
      This is stricter than the `url` crate, which for a non-special scheme
      such as `gemini` also accepts an empty host (`gemini://`) and user info
      (`user@host`). */
  predicate ValidDomain(domain: string) {
    |domain| > 0 && forall i :: 0 <= i < |domain| ==> !IsDelimiter(domain[i])
  }

  /** `Url::parse(&format!("gemini://{}", domain))`. */
  function ParseGemini(domain: string): (r: Result<Url, UrlError>)
    ensures r.Ok? <==> ValidDomain(domain)
    ensures r.Ok? ==> r.value == Url(domain, "")
  {
    if ValidDomain(domain) then Ok(Url(domain, "")) else Err(InvalidDomain)
  }

  /** The path `set_path` stores: a URL with a host has an empty path or one
      that begins with `/`. */
  function NormalizePath(p: string): (r: string)
    ensures r == "" || r[0] == '/'
    ensures |p| > 0 && p[0] == '/' ==> r == p
  {
    if p == "" then "" else if p[0] == '/' then p else "/" + p
  }

  /** `Url::set_path`: replaces the whole path, keeping the host. */
  function SetPath(u: Url, p: string): (r: Url)
    ensures r.host == u.host && r.path == NormalizePath(p)
  {
    Url(u.host, NormalizePath(p))
  }

  /** `Url::to_string`. */
  function ToString(u: Url): string {
    "gemini://" + u.host + u.path
  }
}
