/** Pages and gemlog posts (src/content/mod.rs): their metadata, where their
    source files live, the frontmatter file format (a metadata header, a
    `---` line, the body), creating and publishing them, and rendering one to
    gemtext. */
module Content {
  import opened Wrappers
  import opened Text
  import opened Paths
  import opened Times
  import Urls
  import C = Config
  import Lib

  /** `Kind`: an ordinary page, optionally at a given path, or a gemlog post. */
  datatype Kind = OrdinaryPage(path: Option<Path>) | GemlogPost

  datatype Meta = Meta(
    title: string,
    summary: Option<string>,
    published: Option<Time>,
    tags: seq<string>)

  datatype Page = Page(meta: Meta, content: string)

  /** A draft is a document without a publication time. */
  predicate IsDraft(m: Meta) {
    m.published.None?
  }

  /** `Meta::publish`: the publication time becomes `now` (the caller reads
      the clock); everything else is kept. Publishing again moves the time. */
  function Publish(m: Meta, now: Time): (r: Meta)
    ensures r.published == Some(now) && !IsDraft(r)
    ensures r.title == m.title && r.summary == m.summary && r.tags == m.tags
  {
    m.(published := Some(now))
  }

  // ---- Source paths ----

  /** The file name for a title: trimmed, lower-cased, spaces replaced by
      `_`, with `.gmi` appended. */
  function Slug(title: string): string {
    ReplaceChar(ToLower(Trim(title)), ' ', '_') + ".gmi"
  }

  lemma SlugShape(title: string)
    ensures var t := Trim(title); var s := Slug(title);
      && |s| == |t| + 4
      && s[|t|..] == ".gmi"
      && (forall i :: 0 <= i < |t| ==> s[i] == if t[i] == ' ' then '_' else ToLowerChar(t[i]))
      && (forall i :: 0 <= i < |s| ==> s[i] != ' ')
  {
    var t := Trim(title);
    var s := Slug(title);
    var lower := ToLower(t);
    var replaced := ReplaceChar(lower, ' ', '_');
    assert s == replaced + ".gmi";
    forall i | 0 <= i < |t|
      ensures s[i] == if t[i] == ' ' then '_' else ToLowerChar(t[i])
    {
      ToLowerCharSpace(t[i]);
      assert s[i] == replaced[i];
    }
  }

  /** Titles that differ only in surrounding white space share a file. */
  lemma SlugIgnoresSurroundingSpace(title: string)
    ensures Slug(Trim(title)) == Slug(title)
  {
    TrimIdempotent(title);
  }

  /** `Meta::get_path`. */
  function GetPath(title: string, kind: Kind): (r: Path)
    ensures kind.OrdinaryPage? && kind.path.Some? ==> r == kind.path.value
    ensures kind == OrdinaryPage(None) ==> r == ["content", Slug(title)]
    ensures kind == GemlogPost ==> r == ["content", "gemlog", Slug(title)]
  {
    var tpath := Slug(title);
    match kind
    case OrdinaryPage(Some(p)) => p
    case OrdinaryPage(None) => ["content", tpath]
    case GemlogPost => ["content", "gemlog", tpath]
  }

  // ---- The frontmatter file format ----

  /** The RON header codec, a foreign library: an encoder and a decoder. */
  datatype Codec = Codec(encode: Meta -> string, decode: string -> Option<Meta>)

  /** A delimiter line `---` starts at index `j` of `s`. */
  predicate DelimiterAt(s: string, j: nat) {
    && j + 3 <= |s|
    && s[j..j + 3] == "---"
    && (j == 0 || s[j - 1] == '\n')
    && (j + 3 == |s| || s[j + 3] == '\n')
  }

  predicate HasDelimiterLine(s: string) {
    exists j: nat | j <= |s| :: DelimiterAt(s, j)
  }

  /** What the round-trip law assumes of the header codec: decoding the
      (trimmed) encoding gives the metadata back, and an encoding never holds a
      line that is exactly `---`. */
  ghost predicate RoundTrips(codec: Codec) {
    forall m: Meta :: codec.decode(Trim(codec.encode(m))) == Some(m) && !HasDelimiterLine(codec.encode(m))
  }

  /** The first delimiter line at or after `from`. */
  function FirstDelimiter(s: string, from: nat): (r: Option<nat>)
    ensures r.Some? ==> from <= r.value && DelimiterAt(s, r.value)
    ensures r.Some? ==> forall k: nat :: from <= k < r.value ==> !DelimiterAt(s, k)
    ensures r.None? ==> forall k: nat :: from <= k ==> !DelimiterAt(s, k)
    decreases |s| - from
  {
    if from + 3 > |s| then None
    else if DelimiterAt(s, from) then Some(from)
    else FirstDelimiter(s, from + 1)
  }

  /** The frontmatter extractor splitting at the first `---` line: the text
      before that line and the text after it; without one, everything is
      header. */
  function Extract(s: string): (string, string) {
    match FirstDelimiter(s, 0)
    case Some(j) => (if j == 0 then "" else s[..j - 1], if j + 4 <= |s| then s[j + 4..] else "")
    case None => (s, "")
  }

  /** `ToDisk for Page`: the encoded header, a `---` line, the body verbatim. */
  function ToDisk(codec: Codec, page: Page): string {
    codec.encode(page.meta) + "\n---\n" + page.content
  }

  /** `Page::from_path`, given what reading the file produced (`None` when it
      could not be read): the header and the body are trimmed, and a header
      that does not decode gives no page, not an error. */
  function FromPath(codec: Codec, file: Option<string>): (r: Option<Page>)
    ensures file.None? ==> r.None?
    ensures file.Some? ==>
      var (fm, doc) := Extract(file.value);
      && (r.Some? <==> codec.decode(Trim(fm)).Some?)
      && (r.Some? ==> r.value == Page(codec.decode(Trim(fm)).value, Trim(doc)))
  {
    match file
    case None => None
    case Some(f) =>
      var (fm, doc) := Extract(f);
      match codec.decode(Trim(fm))
      case Some(meta) => Some(Page(meta, Trim(doc)))
      case None => None
  }

  lemma FirstDelimiterAfterHeader(e: string, c: string)
    requires !HasDelimiterLine(e)
    ensures FirstDelimiter(e + "\n---\n" + c, 0) == Some(|e| + 1)
  {
    var s := e + "\n---\n" + c;
    assert s[|e|] == '\n';
    assert s[|e| + 1..|e| + 4] == "---";
    assert s[|e| + 4] == '\n';
    assert DelimiterAt(s, |e| + 1);
    forall k: nat | k < |e| + 1
      ensures !DelimiterAt(s, k)
    {
      if k + 3 <= |e| {
        assert s[k..k + 3] == e[k..k + 3];
        assert k > 0 ==> e[k - 1] == s[k - 1];
        assert k + 3 < |e| ==> e[k + 3] == s[k + 3];
        assert !DelimiterAt(e, k);
      } else {
        assert k <= |e| < k + 3;
        assert s[k..k + 3][|e| - k] == s[|e|] == '\n';
      }
    }
  }

  /** Extracting what `to_disk` wrote gives back the encoded header and the
      body. */
  lemma ExtractToDisk(e: string, c: string)
    requires !HasDelimiterLine(e)
    ensures Extract(e + "\n---\n" + c) == (e, c)
  {
    var s := e + "\n---\n" + c;
    FirstDelimiterAfterHeader(e, c);
    assert s[..|e|] == e;
    assert s[|e| + 5..] == c;
  }

  /** The round-trip law: reading back what `to_disk` wrote gives the same
      metadata and the trimmed body. */
  lemma FromPathToDisk(codec: Codec, page: Page)
    requires RoundTrips(codec)
    ensures FromPath(codec, Some(ToDisk(codec, page))) == Some(Page(page.meta, Trim(page.content)))
  {
    ExtractToDisk(codec.encode(page.meta), page.content);
  }

  // ---- Creating and publishing ----

  /** `Page::create`: the path is built step by step and the new document is a
      draft with an empty body; returns the path and the text written there. */
  function Create(codec: Codec, kind: Kind, title: string, summary: Option<string>, tags: seq<string>)
    : (r: (Path, string))
    ensures r.0 == GetPath(title, kind)
    ensures r.1 == ToDisk(codec, Page(Meta(title, summary, None, tags), ""))
  {
    var tpath := Slug(title);
    var file := match kind
      case OrdinaryPage(Some(path)) => path
      case OrdinaryPage(None) => Push(["content"], [tpath])
      case GemlogPost => Push(Push(["content"], ["gemlog"]), [tpath]);
    var meta := Meta(title, summary, None, tags);
    (file, ToDisk(codec, Page(meta, "")))
  }

  /** A created document reads back as a draft with the given title, summary
      and tags and an empty body. */
  lemma CreateReadsBack(codec: Codec, kind: Kind, title: string, summary: Option<string>, tags: seq<string>)
    requires RoundTrips(codec)
    ensures var (_, text) := Create(codec, kind, title, summary, tags);
      FromPath(codec, Some(text)) == Some(Page(Meta(title, summary, None, tags), ""))
  {
    FromPathToDisk(codec, Page(Meta(title, summary, None, tags), ""));
  }

  /** `Page::publish`: reads the document at `get_path`, sets its publication
      time and writes it back; writes nothing when the file is missing or its
      header does not decode. `file` is what reading that path produced. */
  function PublishPage(codec: Codec, kind: Kind, title: string, file: Option<string>, now: Time)
    : (r: Option<(Path, string)>)
    ensures r.None? <==> FromPath(codec, file).None?
    ensures r.Some? ==> r.value.0 == GetPath(title, kind)
    ensures r.Some? ==> r.value.1 == ToDisk(codec, Page(Publish(FromPath(codec, file).value.meta, now),
                                                        FromPath(codec, file).value.content))
  {
    var path := GetPath(title, kind);
    match FromPath(codec, file)
    case Some(page) => Some((path, ToDisk(codec, page.(meta := Publish(page.meta, now)))))
    case None => None
  }

  /** A published document reads back as published at `now`, with the same
      title, tags and body. */
  lemma PublishPageReadsBack(codec: Codec, kind: Kind, title: string, file: Option<string>, now: Time)
    requires RoundTrips(codec)
    requires PublishPage(codec, kind, title, file, now).Some?
    ensures var old_ := FromPath(codec, file).value;
      var new_ := FromPath(codec, Some(PublishPage(codec, kind, title, file, now).value.1));
      && new_.Some?
      && new_.value.meta.published == Some(now)
      && new_.value.meta.title == old_.meta.title
      && new_.value.meta.tags == old_.meta.tags
      && new_.value.content == old_.content
  {
    var page := FromPath(codec, file).value;
    FromPathToDisk(codec, Page(Publish(page.meta, now), page.content));
    TrimIdempotent(Extract(file.value).1);
  }

  // ---- Atom categories ----

  /** `atom_syndication::Category`. */
  datatype Category = Category(term: string, scheme: Option<string>, labelText: Option<string>)

  /** The file name of a tag's page, for a tag that is a file name (not
      `.`, `..` or empty): the tag with its extension set to `gmi`. */
  function TagFileName(tag: string): string {
    SetExtension(tag, "gmi")
  }

  /** The address of a tag's page: `tags` and then the tag pushed onto the
      configured path, or onto `/` when there is none, with the extension set
      to `gmi`. For `.` and the empty tag, which `Path::components` skips,
      the extension goes on `tags`; `..` has no file name, so the path keeps
      it as pushed. */
  function TagPagePath(cfg: C.Config, tag: string): string {
    var base := match cfg.path case Some(p) => p case None => "/";
    var dir := PushStr(base, "tags");
    if tag == "." || tag == "" then dir + ".gmi"
    else if tag == ".." then PushStr(dir, tag)
    else PushStr(dir, TagFileName(tag))
  }

  function TagCategory(domain: string, cfg: C.Config, tag: string): Category {
    var url := Urls.SetPath(Urls.Url(domain, ""), TagPagePath(cfg, tag));
    Category(tag, Some(Urls.ToString(url)), Some(tag))
  }

  /** `Categories::try_from(&Meta)`: one category per tag, in order, whose
      scheme is the tag page's address; the domain is parsed once per tag, so
      an invalid domain is an error only when there is a tag. */
  method Categories(cfg: C.Config, meta: Meta) returns (r: Result<seq<Category>, Urls.UrlError>)
    ensures r.Err? <==> |meta.tags| > 0 && !Urls.ValidDomain(cfg.domain)
    ensures r.Ok? ==> |r.value| == |meta.tags|
    ensures r.Ok? ==> forall i :: 0 <= i < |meta.tags| ==>
      r.value[i] == TagCategory(cfg.domain, cfg, meta.tags[i])
  {
    var categories: seq<Category> := [];
    var i := 0;
    while i < |meta.tags|
      invariant 0 <= i <= |meta.tags|
      invariant i > 0 ==> Urls.ValidDomain(cfg.domain)
      invariant |categories| == i
      invariant forall k :: 0 <= k < i ==> categories[k] == TagCategory(cfg.domain, cfg, meta.tags[k])
    {
      var tag := meta.tags[i];
      var parsed := Urls.ParseGemini(cfg.domain);
      if parsed.Err? {
        return Err(parsed.error);
      }
      var category := CategoryOf(parsed.value, cfg, tag);
      categories := categories + [category];
      i := i + 1;
    }
    return Ok(categories);
  }

  /** The loop body of `try_from`: the category of one tag, from the parsed
      capsule address. */
  method CategoryOf(url: Urls.Url, cfg: C.Config, tag: string) returns (c: Category)
    requires url == Urls.Url(cfg.domain, "")
    ensures c == TagCategory(cfg.domain, cfg, tag)
  {
    var path := TagPagePath(cfg, tag);
    var u := Urls.SetPath(url, path);
    c := Category(tag, Some(Urls.ToString(u)), Some(tag));
  }

  // ---- Rendering a page ----

  /** The banner block (when there is a banner), the title, the date and the
      body. */
  function Heading(page: Page, banner: Option<string>): string
    requires page.meta.published.Some?
  {
    BannerBlock(banner) + TitleBlock(page.meta.title, DateString(page.meta.published.value), page.content)
  }

  function BannerBlock(banner: Option<string>): string {
    match banner
    case Some(s) => "```\n" + s + "\n```\n"
    case None => ""
  }

  function TitleBlock(title: string, date: string, content: string): string {
    "# " + title + "\n" + "### " + date + "\n" + content + "\n\n"
  }

  /** Where the tag pages are, seen from a page `depth` levels below the
      content root; `root` is the capsule's address. */
  function TagPrefix(depth: nat, root: string): string {
    if depth == 1 then "tags/"
    else if depth == 2 then "../tags/"
    else if depth == 3 then "../../tags/"
    else root + "/tags/"
  }

  function TagLine(tag: string, depth: nat, root: string): string {
    "=> " + TagPrefix(depth, root) + tag + ".gmi " + tag
  }

  function TagLines(tags: seq<string>, depth: nat, root: string): (r: seq<string>)
    ensures |r| == |tags| && forall i :: 0 <= i < |tags| ==> r[i] == TagLine(tags[i], depth, root)
  {
    seq(|tags|, i requires 0 <= i < |tags| => TagLine(tags[i], depth, root))
  }

  /** The "Tags for this page" section: a heading, a line per tag and a blank
      line; nothing when there are no tags. */
  function TagsSection(tags: seq<string>, depth: nat, root: string): string {
    if |tags| == 0 then ""
    else Lib.LinesText(["### Tags for this page"] + TagLines(tags, depth, root) + [""])
  }

  /** The home link's target: relative at depths 1 and 2, the capsule's
      address otherwise (depth 3 included). */
  function HomeTarget(depth: nat, root: string): string {
    if depth == 1 then "." else if depth == 2 then ".." else root
  }

  /** The output file's parent directory is named `gemlog`. */
  predicate InGemlog(path: Path) {
    Parent(path).Some? && FileName(Parent(path).value) == Some("gemlog")
  }

  function NavLines(path: Path, depth: nat, root: string): seq<string> {
    ["=> " + HomeTarget(depth, root) + " Home"] + (if InGemlog(path) then ["=> . All posts"] else [])
  }

  /** The whole rendered page, given the capsule address `root`. */
  function Rendered(cfg: C.Config, page: Page, path: Path, depth: nat, banner: Option<string>, root: string)
    : string
    requires page.meta.published.Some?
  {
    Heading(page, banner) + TagsSection(page.meta.tags, depth, root)
      + Lib.LinesText(NavLines(path, depth, root))
      + Lib.FooterText(cfg, Year(page.meta.published.value))
  }

  /** The capsule address is needed for a tag line or the home link. */
  predicate NeedsUrl(page: Page, depth: nat) {
    |page.meta.tags| > 0 || (depth != 1 && depth != 2)
  }

  function RootText(cfg: C.Config): string {
    match C.Url(cfg)
    case Ok(u) => Urls.ToString(u)
    case Err(_) => ""
  }

  /** Appends the tags section, line by line, to `text`. */
  method AppendTags(text: string, tags: seq<string>, depth: nat, root: string) returns (r: string)
    ensures r == text + TagsSection(tags, depth, root)
  {
    r := text;
    if |tags| == 0 {
      return;
    }
    Lib.WriteStep(text, [], "### Tags for this page");
    r := r + "### Tags for this page" + "\n";
    r := AppendTagLines(text, r, ["### Tags for this page"], tags, depth, root);
    ghost var lines := ["### Tags for this page"] + TagLines(tags, depth, root);
    Lib.WriteStep(text, lines, "");
    r := r + "\n";
  }

  /** The loop of `AppendTags`: one link line per tag, in order. */
  method AppendTagLines(ghost text: string, acc: string, ghost lines: seq<string>, tags: seq<string>,
                        depth: nat, root: string) returns (r: string)
    requires acc == text + Lib.LinesText(lines)
    ensures r == text + Lib.LinesText(lines + TagLines(tags, depth, root))
  {
    r := acc;
    var i := 0;
    assert lines + TagLines(tags[..0], depth, root) == lines;
    while i < |tags|
      invariant 0 <= i <= |tags|
      invariant r == text + Lib.LinesText(lines + TagLines(tags[..i], depth, root))
    {
      var line := TagLine(tags[i], depth, root);
      ghost var done := lines + TagLines(tags[..i], depth, root);
      Lib.WriteStep(text, done, line);
      r := r + line + "\n";
      TagLinesStep(tags, i, depth, root);
      assert done + [line] == lines + (TagLines(tags[..i], depth, root) + [line]);
      i := i + 1;
    }
    assert tags[..i] == tags;
  }

  lemma TagLinesStep(tags: seq<string>, i: nat, depth: nat, root: string)
    requires i < |tags|
    ensures TagLines(tags[..i + 1], depth, root) == TagLines(tags[..i], depth, root) + [TagLine(tags[i], depth, root)]
  {
  }

  /** Appends the home link and, for a page under `gemlog`, the "All posts"
      link. */
  method AppendNav(text: string, path: Path, depth: nat, root: string) returns (r: string)
    ensures r == text + Lib.LinesText(NavLines(path, depth, root))
  {
    ghost var lines: seq<string> := [];
    r := text;
    assert r == text + Lib.LinesText(lines);
    var home := "=> " + HomeTarget(depth, root) + " Home";
    Lib.WriteStep(text, lines, home);
    r := r + home + "\n";
    lines := lines + [home];
    if InGemlog(path) {
      Lib.WriteStep(text, lines, "=> . All posts");
      r := r + "=> . All posts" + "\n";
      lines := lines + ["=> . All posts"];
    }
    assert lines == NavLines(path, depth, root);
  }

  /** `Page::render`: builds the page text line by line. It fails only when it
      needs the capsule address and the configured domain does not parse. The
      document must be published. */
  method Render(cfg: C.Config, page: Page, path: Path, depth: nat, banner: Option<string>)
    returns (r: Result<string, Urls.UrlError>)
    requires page.meta.published.Some?
    ensures r.Err? <==> NeedsUrl(page, depth) && !Urls.ValidDomain(cfg.domain)
    ensures r.Ok? ==> r.value == Rendered(cfg, page, path, depth, banner, RootText(cfg))
  {
    var root := RootText(cfg);
    if |page.meta.tags| > 0 {
      var u := C.Url(cfg);
      if u.Err? {
        return Err(u.error);
      }
    }
    var text := AppendTags(Heading(page, banner), page.meta.tags, depth, root);
    if depth != 1 && depth != 2 {
      var u := C.Url(cfg);
      if u.Err? {
        return Err(u.error);
      }
    }
    text := AppendNav(text, path, depth, root);
    text := text + Lib.FooterText(cfg, Year(page.meta.published.value));
    return Ok(text);
  }

  /** The tags section is there exactly when the page has tags, and then lists
      them one per line in order, each linking to its tag page. */
  lemma TagsSectionShape(tags: seq<string>, depth: nat, root: string)
    ensures TagsSection(tags, depth, root) == "" <==> |tags| == 0
    ensures |tags| > 0 ==>
      TagsSection(tags, depth, root) == Lib.LinesText(["### Tags for this page"] + TagLines(tags, depth, root) + [""])
  {
    if |tags| > 0 {
      var lines := ["### Tags for this page"] + TagLines(tags, depth, root) + [""];
      Lib.LinesTextAppend(lines[..|lines| - 1], "");
      assert lines[..|lines| - 1] + [""] == lines;
    }
  }

  /** Tag links are relative (`tags/`, `../tags/`, `../../tags/`) at depths 1
      to 3 and absolute below that; the home link is relative only at depths 1
      and 2, so at depth 3 the two disagree. */
  lemma DepthLinks(depth: nat, root: string, tag: string)
    ensures depth == 1 ==>
      TagLine(tag, depth, root) == "=> tags/" + tag + ".gmi " + tag && HomeTarget(depth, root) == "."
    ensures depth == 2 ==>
      TagLine(tag, depth, root) == "=> ../tags/" + tag + ".gmi " + tag && HomeTarget(depth, root) == ".."
    ensures depth == 3 ==>
      TagLine(tag, depth, root) == "=> ../../tags/" + tag + ".gmi " + tag && HomeTarget(depth, root) == root
    ensures depth == 0 || depth > 3 ==>
      TagLine(tag, depth, root) == "=> " + root + "/tags/" + tag + ".gmi " + tag
      && HomeTarget(depth, root) == root
  {
    if depth == 1 {
      assert "=> " + "tags/" == "=> tags/";
    } else if depth == 2 {
      assert "=> " + "../tags/" == "=> ../tags/";
    } else if depth == 3 {
      assert "=> " + "../../tags/" == "=> ../../tags/";
    } else {
      assert TagPrefix(depth, root) == root + "/tags/";
    }
  }

  /** A heading starts with the banner block exactly when there is a banner,
      and otherwise with the title line. */
  lemma HeadingStart(page: Page, banner: Option<string>)
    requires page.meta.published.Some?
    ensures banner.Some? ==> "```\n" + banner.value + "\n```\n# " <= Heading(page, banner)
    ensures banner.None? ==> "# " + page.meta.title + "\n" <= Heading(page, banner)
  {
    var t := TitleBlock(page.meta.title, DateString(page.meta.published.value), page.content);
    TitleBlockStart(page.meta.title, DateString(page.meta.published.value), page.content);
    var rest := t[|"# "|..];
    assert t == "# " + rest;
    if banner.Some? {
      var block := BannerBlock(banner);
      assert Heading(page, banner) == (block + "# ") + rest;
      PrefixOfConcat(block + "# ", rest);
    } else {
      assert Heading(page, banner) == t;
    }
  }

  lemma TitleBlockStart(title: string, date: string, content: string)
    ensures "# " + title + "\n" <= TitleBlock(title, date, content)
  {
    var rest := "### " + date + "\n" + content + "\n\n";
    assert TitleBlock(title, date, content) == ("# " + title + "\n") + rest;
    PrefixOfConcat("# " + title + "\n", rest);
  }

  lemma PrefixOfConcat(a: string, b: string)
    ensures a <= a + b
  {
    assert (a + b)[..|a|] == a;
  }

  /** The banner block comes first exactly when there is a banner; otherwise
      the page starts with its title. */
  lemma RenderedStart(cfg: C.Config, page: Page, path: Path, depth: nat, banner: Option<string>, root: string)
    requires page.meta.published.Some?
    ensures banner.Some? ==> "```\n" + banner.value + "\n```\n# " <= Rendered(cfg, page, path, depth, banner, root)
    ensures banner.None? ==> "# " + page.meta.title + "\n" <= Rendered(cfg, page, path, depth, banner, root)
  {
    HeadingStart(page, banner);
    var start := if banner.Some? then "```\n" + banner.value + "\n```\n# " else "# " + page.meta.title + "\n";
    var t1 := Heading(page, banner) + TagsSection(page.meta.tags, depth, root);
    PrefixExtend(start, Heading(page, banner), TagsSection(page.meta.tags, depth, root));
    var t2 := t1 + Lib.LinesText(NavLines(path, depth, root));
    PrefixExtend(start, t1, Lib.LinesText(NavLines(path, depth, root)));
    PrefixExtend(start, t2, Lib.FooterText(cfg, Year(page.meta.published.value)));
  }

  lemma PrefixExtend(p: string, a: string, b: string)
    requires p <= a
    ensures p <= a + b
  {
    assert (a + b)[..|a|] == a;
    assert (a + b)[..|p|] == a[..|p|];
  }

  /** An "All posts" line follows the home link exactly when the page is in a
      directory named `gemlog`. */
  lemma AllPostsLine(path: Path, depth: nat, root: string)
    ensures |NavLines(path, depth, root)| == 2 <==> InGemlog(path)
    ensures InGemlog(path) ==> NavLines(path, depth, root)[1] == "=> . All posts"
  {
  }
}
