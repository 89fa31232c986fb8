/** A resolved reference to a rendered document (src/link.rs): an absolute URL
    and the text shown for it. */
module Links {

  datatype Link = Link(url: string, display: string)

  /** `impl Display for Link`: a gemtext link line without its line break. */
  function Display(l: Link): string {
    "=> " + l.url + " " + l.display
  }

  /** The rendered line starts with the link marker and ends with the display
      text, with the URL between them; it holds no line break of its own when
      the URL and display text hold none. */
  lemma DisplayShape(l: Link)
    ensures Display(l)[..3] == "=> "
    ensures Display(l)[3..3 + |l.url|] == l.url
    ensures Display(l)[|Display(l)| - |l.display|..] == l.display
    ensures ('\n' !in l.url && '\n' !in l.display) ==> '\n' !in Display(l)
  {
    var s := Display(l);
    assert s == "=> " + l.url + " " + l.display;
    if '\n' !in l.url && '\n' !in l.display {
      forall i | 0 <= i < |s| ensures s[i] != '\n' {
        if i < 3 {
        } else if i < 3 + |l.url| {
          assert s[i] == l.url[i - 3];
        } else if i == 3 + |l.url| {
        } else {
          assert s[i] == l.display[i - 4 - |l.url|];
        }
      }
    }
  }
}

/** `Link::get` (src/link.rs): the link to a rendered document, from the
    document's source path. */
module LinkResolver {
  import opened Wrappers
  import opened Paths
  import Times
  import Urls
  import C = Config
  import Content
  import opened Links

  datatype LinkError = BadUrl(e: Urls.UrlError) | NotUnderContent

  /** The text shown for a published document: its date, a dash, its title. */
  function DisplayText(meta: Content.Meta): string
    requires meta.published.Some?
  {
    Times.DateString(meta.published.value) + " - " + meta.title
  }

  /** `Link::get`: `cwd` is the working directory. The capsule address is
      computed first, then `origin` is made relative to `<cwd>/content`, and
      that relative path becomes the whole URL path. The document must be
      published. */
  function Get(origin: Path, cwd: Path, cfg: C.Config, meta: Content.Meta): (r: Result<Link, LinkError>)
    requires meta.published.Some?
    ensures r.Err? <==> !Urls.ValidDomain(cfg.domain) || !StartsWith(origin, Push(cwd, ["content"]))
    ensures !Urls.ValidDomain(cfg.domain) ==> r == Err(BadUrl(Urls.InvalidDomain))
    ensures r.Ok? ==>
      var rel := origin[|Push(cwd, ["content"])|..];
      && r.value.url == "gemini://" + cfg.domain + Urls.NormalizePath(Paths.ToString(rel))
      && r.value.display == DisplayText(meta)
  {
    match C.Url(cfg)
    case Err(e) => Err(BadUrl(e))
    case Ok(url) =>
      var current := Push(cwd, ["content"]);
      match StripPrefix(origin, current)
      case None => Err(NotUnderContent)
      case Some(path) =>
        var u := Urls.SetPath(url, Paths.ToString(path));
        Ok(Link(Urls.ToString(u), DisplayText(meta)))
  }

  /** The configured capsule path plays no part: the content-relative path
      replaces it rather than being appended to it. */
  lemma GetIgnoresCapsulePath(origin: Path, cwd: Path, cfg: C.Config, meta: Content.Meta)
    requires meta.published.Some?
    ensures Get(origin, cwd, cfg, meta) == Get(origin, cwd, cfg.(path := None), meta)
  {
  }

  /** A document under `<cwd>/content` at relative path `rel` links to
      `gemini://<domain>/<rel>`, and fails only on a bad domain. */
  lemma GetOfContentPath(cwd: Path, rel: Path, cfg: C.Config, meta: Content.Meta)
    requires meta.published.Some?
    ensures var r := Get(cwd + ["content"] + rel, cwd, cfg, meta);
      && (r.Err? <==> !Urls.ValidDomain(cfg.domain))
      && (r.Ok? ==> r.value.url == "gemini://" + cfg.domain + Urls.NormalizePath(Paths.ToString(rel)))
  {
    StripPrefixOfJoin(cwd + ["content"], rel);
  }
}
