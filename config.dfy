/** Site-wide capsule settings (src/config/mod.rs). The configuration is a
    value handed to every operation that needs it; loading and saving it are
    not part of this model. */
module Config {
  import opened Wrappers
  import Licenses
  import Links
  import Urls

  /** Which feeds a build generates. */
  datatype Feed = Atom | Gemini | Both

  /** `#[default]` on `Feed`. */
  function DefaultFeed(): (f: Feed)
    ensures f == Atom
  {
    Atom
  }

  /** Which pages show their publication date. */
  datatype DisplayDate = Always | GemlogOnly | Never

  /** `#[default]` on `DisplayDate`. */
  function DefaultDisplayDate(): (d: DisplayDate)
    ensures d == GemlogOnly
  {
    GemlogOnly
  }

  datatype ConfigError = ParseEnumError

  /** `impl FromStr for DisplayDate`. */
  function DisplayDateFromStr(s: string): (r: Result<DisplayDate, ConfigError>)
    ensures r == Ok(Always) <==> s == "always" || s == "Always"
    ensures r == Ok(GemlogOnly) <==>
      s == "gemlogonly" || s == "gemlog" || s == "gemlog_only" || s == "GemlogOnly" || s == "Gemlog"
    ensures r == Ok(Never) <==> s == "never" || s == "Never"
    ensures r.Err? ==> r.error == ParseEnumError
  {
    if s == "always" || s == "Always" then Ok(Always)
    else if s == "gemlogonly" || s == "gemlog" || s == "gemlog_only" || s == "GemlogOnly" || s == "Gemlog"
    then Ok(GemlogOnly)
    else if s == "never" || s == "Never" then Ok(Never)
    else Err(ParseEnumError)
  }

  /** The variant name the derived `Serialize` writes. */
  function DisplayDateName(d: DisplayDate): string {
    match d
    case Always => "Always"
    case GemlogOnly => "GemlogOnly"
    case Never => "Never"
  }

  /** Every variant reads back from its own name. */
  lemma DisplayDateNameRoundTrip(d: DisplayDate)
    ensures DisplayDateFromStr(DisplayDateName(d)) == Ok(d)
  {
  }

  /** The primary author of the capsule. */
  datatype Person = Person(name: string, email: Option<string>, url: Option<string>)

  /** `atom_syndication::Person`. */
  datatype AtomPerson = AtomPerson(name: string, email: Option<string>, uri: Option<string>)

  /** `Person::to_atom`: the same name, e-mail and home page. */
  function ToAtom(p: Person): (a: AtomPerson)
    ensures a.name == p.name && a.email == p.email && a.uri == p.url
  {
    AtomPerson(p.name, p.email, p.url)
  }

  datatype Config = Config(
    title: string,
    author: Person,
    domain: string,
    path: Option<string>,
    entries: nat,
    displayDate: DisplayDate,
    feed: Option<Feed>,
    license: Option<Licenses.License>,
    showEmail: bool,
    footerLinks: seq<Links.Link>)

  /** The configured path from the server root, or the empty path. */
  function CapsulePath(cfg: Config): string {
    match cfg.path
    case Some(p) => p
    case None => ""
  }

  /** `Config::url`: `gemini://<domain>` with the configured path; an error when
      the domain does not parse. */
  function Url(cfg: Config): (r: Result<Urls.Url, Urls.UrlError>)
    ensures r.Ok? <==> Urls.ValidDomain(cfg.domain)
    ensures r.Ok? ==> r.value.host == cfg.domain && r.value.path == Urls.NormalizePath(CapsulePath(cfg))
  {
    var path := CapsulePath(cfg);
    match Urls.ParseGemini(cfg.domain)
    case Ok(u) => Ok(Urls.SetPath(u, path))
    case Err(e) => Err(e)
  }

  /** Without a configured path the capsule root is just `gemini://<domain>`;
      with an absolute one it is that path under the domain. */
  lemma UrlString(cfg: Config)
    requires Urls.ValidDomain(cfg.domain)
    ensures cfg.path.None? ==> Urls.ToString(Url(cfg).value) == "gemini://" + cfg.domain
    ensures cfg.path.Some? && |cfg.path.value| > 0 && cfg.path.value[0] == '/' ==>
      Urls.ToString(Url(cfg).value) == "gemini://" + cfg.domain + cfg.path.value
  {
  }
}
