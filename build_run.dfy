/** `zond build` as a whole (`run` in src/command/build.rs): walk the capsule,
    write the Atom feed when one is configured, then the tag pages, the home
    index and the gemlog index. Files are returned as (path, text) pairs
    rather than written, but which directories exist is tracked, since a
    write into a missing one fails; the two index sources and the year are
    what the file system and the clock would give. */
module Build {
  import opened Wrappers
  import opened Paths
  import C = Config
  import Content
  import Lib
  import Urls
  import Times
  import LinkResolver
  import opened BuildItems
  import opened BuildRender

  /** Everything one build produces. */
  datatype Site = Site(
    items: Items,
    atom: Option<(Path, AtomFeed)>,
    tagIndex: (Path, string),
    tagPages: seq<(Path, string)>,
    index: Option<(Path, string)>,
    gemlogIndex: Option<(Path, string)>,
    dirs: set<Path>)

  /** Whether the configured feed setting asks for an Atom feed. */
  predicate WantsAtom(feed: Option<C.Feed>) {
    feed == Some(C.Atom) || feed == Some(C.Both)
  }

  /** The feed step: nothing, or the Atom feed at `gemlog/atom.xml`. The
      `Gemini` setting writes nothing, and `Both` writes only the Atom feed. */
  function FeedPart(cfg: C.Config, output: Path, posts: Posts): (r: Result<Option<(Path, AtomFeed)>, BuildError>)
    requires AllPublished(posts)
    ensures !WantsAtom(cfg.feed) ==> r == Ok(None)
    ensures WantsAtom(cfg.feed) ==> (r.Err? <==> AtomSpec(cfg, posts).Err?)
    ensures r.Ok? && r.value.Some? ==>
      r.value.value == (Lib.FeedGetPath(output, None), AtomSpec(cfg, posts).value)
  {
    if !WantsAtom(cfg.feed) then Ok(None)
    else match AtomSpec(cfg, posts)
      case Err(e) => Err(e)
      case Ok(feed) => Ok(Some((Lib.FeedGetPath(output, None), feed)))
  }

  function IndexPart(cfg: C.Config, output: Path, indexFile: Option<Content.Page>, posts: Posts, year: int): Option<(Path, string)>
    requires AllPublished(posts)
  {
    match indexFile
    case None => None
    case Some(page) => Some((output + ["index.gmi"], IndexText(cfg, page, posts, year)))
  }

  function GemlogIndexPart(cfg: C.Config, output: Path, indexFile: Option<Content.Page>, posts: Posts, year: int): Option<(Path, string)>
    requires AllPublished(posts)
  {
    match indexFile
    case None => None
    case Some(page) => Some((output + ["gemlog", "index.gmi"], GemlogIndexText(cfg, page, posts, year)))
  }

  /** The output directories after the feed step: `Feed::to_disk` creates
      `gemlog` before writing the Atom feed. */
  function FeedDirs(dirs: set<Path>, atom: Option<(Path, AtomFeed)>): set<Path> {
    if atom.Some? then dirs + Ancestors(["gemlog"]) else dirs
  }

  /** The Atom feed, relative to the output directory. */
  const FeedRel: Path := ["gemlog", "atom.xml"]

  /** `Feed::to_disk`: `gemlog` is created, then the feed is written at
      `gemlog/atom.xml`, which fails when the walk rendered a document below
      a directory of that name. */
  function FeedWritten(output: Path, dirs: set<Path>, atom: Option<(Path, AtomFeed)>): (r: Result<set<Path>, BuildError>)
    ensures r.Err? <==> atom.Some? && FeedRel in dirs
    ensures r.Err? ==> r.error == IsDirectory(output + FeedRel)
    ensures r.Ok? ==> r.value == FeedDirs(dirs, atom)
  {
    AncestorsOfName("gemlog");
    if atom.None? then Ok(dirs) else WriteFile(output, dirs + Ancestors(["gemlog"]), FeedRel)
  }

  /** The feed step creates only `gemlog` and the output directory, so any
      other path is a directory after it exactly when it was one before. */
  lemma FeedDirsElsewhere(dirs: set<Path>, atom: Option<(Path, AtomFeed)>, rel: Path)
    requires |rel| > 0 && rel != ["gemlog"]
    ensures rel in FeedDirs(dirs, atom) <==> rel in dirs
  {
    AncestorsOfName("gemlog");
  }

  /** An index page is written into `d` only when its source exists. */
  function WriteIndex(rev: Revision, output: Path, dirs: set<Path>, indexFile: Option<Content.Page>, d: Path)
    : Result<set<Path>, BuildError>
  {
    if indexFile.Some? then WriteInto(rev, output, dirs, d) else Ok(dirs)
  }

  /** The renderers after the feed, starting from the output directories
      `dirs`: the tag stage, then the home index into the output directory
      and the gemlog index into `gemlog`, stopping at the first write that
      fails. */
  function RenderedSite(rev: Revision, cfg: C.Config, output: Path, s: Items, atom: Option<(Path, AtomFeed)>,
                        dirs: set<Path>, indexFile: Option<Content.Page>, gemlogIndexFile: Option<Content.Page>,
                        year: int): Result<Site, BuildError>
    requires Good(s)
  {
    match TagsWritten(rev, output, dirs, s.tagOrder)
    case Err(e) => Err(e)
    case Ok(tagged) =>
      match WriteIndex(rev, output, tagged, indexFile, [])
      case Err(e) => Err(e)
      case Ok(indexed) =>
        match WriteIndex(rev, output, indexed, gemlogIndexFile, ["gemlog"])
        case Err(e) => Err(e)
        case Ok(written) =>
          Ok(Site(s, atom,
                  (TagIndexPath(output), TagIndexText(cfg, s.tagOrder, year)),
                  TagPages(rev, cfg, output, s.tags, s.tagOrder, year),
                  IndexPart(cfg, output, indexFile, s.posts, year),
                  GemlogIndexPart(cfg, output, gemlogIndexFile, s.posts, year),
                  written))
  }

  /** The site a build produces from a walk result that keeps the walk's
      guarantees. */
  function SiteOf(rev: Revision, cfg: C.Config, output: Path, s: Items, indexFile: Option<Content.Page>,
                  gemlogIndexFile: Option<Content.Page>, year: int): Result<Site, BuildError>
    requires Good(s)
  {
    match FeedPart(cfg, output, s.posts)
    case Err(e) => Err(e)
    case Ok(atom) =>
      match FeedWritten(output, s.dirs, atom)
      case Err(e) => Err(e)
      case Ok(fed) => RenderedSite(rev, cfg, output, s, atom, fed, indexFile, gemlogIndexFile, year)
  }

  /** What a build produces: the walk's error, the feed's error, or the site. */
  function RunSpec(rev: Revision, cfg: C.Config, cwd: Path, output: Path, entries: seq<Entry>,
                   indexFile: Option<Content.Page>, gemlogIndexFile: Option<Content.Page>, year: int): Result<Site, BuildError>
  {
    match Walk(rev, cfg, cwd, output, entries)
    case Err(e) => Err(e)
    case Ok(s) =>
      WalkGood(rev, cfg, cwd, output, entries);
      SiteOf(rev, cfg, output, s, indexFile, gemlogIndexFile, year)
  }

  /** The feed match of `run`: `Atom` and `Both` build the Atom feed, bound
      for `gemlog/atom.xml`; `Gemini` and no setting build nothing. */
  method BuildFeed(cfg: C.Config, output: Path, posts: Posts) returns (r: Result<Option<(Path, AtomFeed)>, BuildError>)
    requires AllPublished(posts)
    ensures r == FeedPart(cfg, output, posts)
  {
    if cfg.feed == Some(C.Atom) || cfg.feed == Some(C.Both) {
      var feed := BuildRender.Atom(cfg, posts);
      if feed.Err? {
        return Err(feed.error);
      }
      return Ok(Some((Lib.FeedGetPath(output, None), feed.value)));
    }
    return Ok(None);
  }

  /** The three renderers after the feed, from the output directories
      `dirs`. */
  method RenderSite(rev: Revision, cfg: C.Config, output: Path, s: Items, atom: Option<(Path, AtomFeed)>,
                    dirs: set<Path>, indexFile: Option<Content.Page>, gemlogIndexFile: Option<Content.Page>, year: int)
    returns (r: Result<Site, BuildError>)
    requires Good(s) && Rooted(dirs)
    ensures r == RenderedSite(rev, cfg, output, s, atom, dirs, indexFile, gemlogIndexFile, year)
  {
    var tagIndex, tagPages, tagged := RenderTags(rev, cfg, output, s.tags, s.tagOrder, dirs, year);
    if tagged.Err? {
      return Err(tagged.error);
    }
    var index := RenderIndex(cfg, output, indexFile, s.posts, year);
    var indexed := WriteIndex(rev, output, tagged.value, indexFile, []);
    if indexed.Err? {
      return Err(indexed.error);
    }
    var gemlogIndex := RenderGemlogIndex(cfg, output, gemlogIndexFile, s.posts, year);
    var written := WriteIndex(rev, output, indexed.value, gemlogIndexFile, ["gemlog"]);
    if written.Err? {
      return Err(written.error);
    }
    assert index == IndexPart(cfg, output, indexFile, s.posts, year);
    assert gemlogIndex == GemlogIndexPart(cfg, output, gemlogIndexFile, s.posts, year);
    return Ok(Site(s, atom, tagIndex, tagPages, index, gemlogIndex, written.value));
  }

  /** `run`: the walk, the feed the configuration asks for, the tag pages, the
      home index and the gemlog index, stopping at the first error. */
  method Run(rev: Revision, cfg: C.Config, cwd: Path, output: Path, entries: seq<Entry>,
             indexFile: Option<Content.Page>, gemlogIndexFile: Option<Content.Page>, year: int)
    returns (r: Result<Site, BuildError>)
    ensures r == RunSpec(rev, cfg, cwd, output, entries, indexFile, gemlogIndexFile, year)
  {
    var items := ItemsOf(rev, cfg, cwd, output, entries);
    if items.Err? {
      return Err(items.error);
    }
    var s := items.value;
    WalkGood(rev, cfg, cwd, output, entries);
    var atom := BuildFeed(cfg, output, s.posts);
    if atom.Err? {
      return Err(atom.error);
    }
    var dirs := s.dirs;
    if atom.value.Some? {
      dirs := dirs + Ancestors(["gemlog"]);
      var feedWritten := WriteFile(output, dirs, FeedRel);
      if feedWritten.Err? {
        return Err(feedWritten.error);
      }
    }
    r := RenderSite(rev, cfg, output, s, atom.value, dirs, indexFile, gemlogIndexFile, year);
  }

  // ---- What a build guarantees ----

  /** A build fails exactly when the walk fails, or the walk succeeds and
      either an Atom feed is wanted with no posts, an invalid domain or a
      directory at `gemlog/atom.xml`, or a tag page cannot be written (as
      written the tag `..`, whose page is the output directory itself, or a
      tag whose page path is a directory the walk rendered into), or
      `tags/index.gmi` is such a directory, or (as written) an index is
      written into a directory nothing created: the tag index when there is
      no tag and no document was rendered below `tags`, the gemlog index when
      there is no Atom feed and no document was rendered below `gemlog`. */
  lemma RunFails(rev: Revision, cfg: C.Config, cwd: Path, output: Path, entries: seq<Entry>,
                 indexFile: Option<Content.Page>, gemlogIndexFile: Option<Content.Page>, year: int)
    ensures var w := Walk(rev, cfg, cwd, output, entries);
      RunSpec(rev, cfg, cwd, output, entries, indexFile, gemlogIndexFile, year).Err?
      <==> || w.Err?
           || (WantsAtom(cfg.feed) && (|w.value.posts| == 0 || !Urls.ValidDomain(cfg.domain) || FeedRel in w.value.dirs))
           || (rev == AsWritten && ".." in w.value.tagOrder)
           || (exists t :: t in w.value.tagOrder && TagPageRel(rev, t) in w.value.dirs)
           || TagIndexRel in w.value.dirs
           || (rev == AsWritten && |w.value.tagOrder| == 0 && ["tags"] !in w.value.dirs)
           || (rev == AsWritten && gemlogIndexFile.Some? && !WantsAtom(cfg.feed) && ["gemlog"] !in w.value.dirs)
  {
    var w := Walk(rev, cfg, cwd, output, entries);
    if w.Ok? {
      WalkGood(rev, cfg, cwd, output, entries);
      var s := w.value;
      var atom := FeedPart(cfg, output, s.posts);
      if atom.Ok? && FeedWritten(output, s.dirs, atom.value).Ok? {
        AncestorsOfName("gemlog");
        var fed := FeedDirs(s.dirs, atom.value);
        assert ["tags"] in fed <==> ["tags"] in s.dirs;
        assert ["gemlog"] in fed <==> ["gemlog"] in s.dirs || WantsAtom(cfg.feed);
        FeedKeepsTagPaths(rev, s.dirs, atom.value, s.tagOrder);
        RenderedSiteFails(rev, cfg, output, s, atom.value, fed, indexFile, gemlogIndexFile, year);
      }
    }
  }

  /** The feed step makes no tag page path and no tag index path a
      directory. */
  lemma FeedKeepsTagPaths(rev: Revision, dirs: set<Path>, atom: Option<(Path, AtomFeed)>, order: seq<string>)
    ensures TagIndexRel in FeedDirs(dirs, atom) <==> TagIndexRel in dirs
    ensures (exists t :: t in order && TagPageRel(rev, t) in FeedDirs(dirs, atom))
        <==> (exists t :: t in order && TagPageRel(rev, t) in dirs)
  {
    FeedDirsElsewhere(dirs, atom, TagIndexRel);
    forall t | t in order
      ensures TagPageRel(rev, t) in FeedDirs(dirs, atom) <==> TagPageRel(rev, t) in dirs
    {
      FeedDirsElsewhere(dirs, atom, TagPageRel(rev, t));
    }
  }

  /** After the feed, a build fails exactly when a tag page cannot be
      written (as written the tag `..`, or a tag whose page path is already
      a directory), or `tags/index.gmi` is a directory, or, as written, the
      tag index goes into a `tags` that the tag loop did not create, or the
      gemlog index into a missing `gemlog`; the home index always finds the
      output directory, which `tags` lies in. */
  lemma RenderedSiteFails(rev: Revision, cfg: C.Config, output: Path, s: Items, atom: Option<(Path, AtomFeed)>,
                          dirs: set<Path>, indexFile: Option<Content.Page>, gemlogIndexFile: Option<Content.Page>,
                          year: int)
    requires Good(s) && Rooted(dirs)
    ensures RenderedSite(rev, cfg, output, s, atom, dirs, indexFile, gemlogIndexFile, year).Err?
      <==> || (rev == AsWritten && ".." in s.tagOrder)
           || (exists t :: t in s.tagOrder && TagPageRel(rev, t) in dirs)
           || TagIndexRel in dirs
           || (rev == AsWritten && |s.tagOrder| == 0 && ["tags"] !in dirs)
           || (rev == AsWritten && gemlogIndexFile.Some? && ["gemlog"] !in dirs)
  {
    PagesBeforeFailureAt(rev, output, dirs, s.tagOrder);
    AncestorsOfName("tags");
    var tagged := TagDirs(rev, dirs, s.tagOrder);
    TagDirsElsewhere(rev, dirs, s.tagOrder, TagIndexRel);
    if ["tags"] in tagged {
      assert [] in tagged;
    }
    assert ["gemlog"] in tagged <==> ["gemlog"] in dirs;
  }

  /** Corrected, every directory is created before anything is written into
      it: a build fails only for a document that fails on its own, for an
      Atom feed without posts, with an invalid domain or onto a directory,
      or for a tag page or tag index whose path is a directory the walk
      rendered into. */
  lemma CorrectedRunFails(cfg: C.Config, cwd: Path, output: Path, entries: seq<Entry>,
                          indexFile: Option<Content.Page>, gemlogIndexFile: Option<Content.Page>, year: int)
    ensures var w := Walk(Corrected, cfg, cwd, output, entries);
      RunSpec(Corrected, cfg, cwd, output, entries, indexFile, gemlogIndexFile, year).Err?
      <==> || (exists i :: 0 <= i < |entries| && Fails(Corrected, cfg, entries[i]))
           || (w.Ok? && WantsAtom(cfg.feed) && (|w.value.posts| == 0 || !Urls.ValidDomain(cfg.domain) || FeedRel in w.value.dirs))
           || (w.Ok? && (exists t :: t in w.value.tagOrder && ["tags", t + ".gmi"] in w.value.dirs))
           || (w.Ok? && TagIndexRel in w.value.dirs)
  {
    RunFails(Corrected, cfg, cwd, output, entries, indexFile, gemlogIndexFile, year);
    CorrectedWalkFails(cfg, cwd, output, entries);
  }

  /** `about.gmi` at the top of `content` is a document, processed when
      published, and rendered into the output directory itself. */
  lemma AboutIsProcessed(page: Content.Page)
    requires page.meta.published.Some?
    ensures var e := Entry(["about.gmi"], true, Some(page));
      Classify(e) == Process(page) && !InGemlog(e.rel) && DirOf(e.rel) == []
  {
    var e := Entry(["about.gmi"], true, Some(page));
    var n := "about.gmi";
    assert n[|n| - 1] == 'i' && n[|n| - 2] == 'm' && n[|n| - 3] == 'g' && n[|n| - 4] == '.';
    assert n[..|n| - 1] == "about.gm";
    assert "about.gm"[..7] == "about.g";
    assert "about.g"[..6] == "about.";
    assert LastDot(n) == Some(5);
    assert n[6..] == "gmi";
    assert IsGmi(e.rel) && !Reserved(e.rel);
  }

  /** The walk of a capsule holding the single published page `about.gmi`
      is the processing of that page. */
  lemma AboutStep(rev: Revision, cfg: C.Config, cwd: Path, output: Path, page: Content.Page)
    requires page.meta.published.Some?
    ensures var e := Entry(["about.gmi"], true, Some(page));
      Walk(rev, cfg, cwd, output, [e]) == ProcessStep(rev, cfg, cwd, output, NoItems, e.rel, page)
  {
    var e := Entry(["about.gmi"], true, Some(page));
    AboutIsProcessed(page);
    assert [e][..0] == [];
    assert Walk(rev, cfg, cwd, output, [e]) == Step(rev, cfg, cwd, output, NoItems, e);
  }

  /** The walk of a capsule holding the single published page `about.gmi`:
      it renders the page into the output directory itself and knows a tag
      exactly when the page names one. */
  lemma AboutWalk(rev: Revision, cfg: C.Config, cwd: Path, output: Path, page: Content.Page)
    requires Urls.ValidDomain(cfg.domain) && page.meta.published.Some?
    ensures var w := Walk(rev, cfg, cwd, output, [Entry(["about.gmi"], true, Some(page))]);
      && w.Ok? && w.value.dirs == {[]} && w.value.posts == []
      && (|w.value.tagOrder| == 0 <==> |page.meta.tags| == 0)
      && (forall t :: t in w.value.tagOrder ==> t in page.meta.tags)
  {
    var e := Entry(["about.gmi"], true, Some(page));
    AboutIsProcessed(page);
    AboutStep(rev, cfg, cwd, output, page);
    AncestorsOfRoot();
    var link := LinkFor(rev, cfg, cwd, e.rel, page.meta).value;
    ProcessedPlacement(rev, cfg, cwd, output, NoItems, e);
    var w := Walk(rev, cfg, cwd, output, [e]);
    assert w.value.tagOrder == AddLinks(map[], [], page.meta.tags, link).1;
    FirstTagsOrder(page.meta.tags, link);
    AddLinksFrom(map[], [], page.meta.tags, link);
  }

  /** A capsule of one published page without tags, and no feed: as written
      nothing creates `tags`, so writing the tag index stops the build;
      corrected, the build succeeds. */
  lemma TaglessCapsuleFails(cfg: C.Config, cwd: Path, output: Path, page: Content.Page, year: int)
    requires Urls.ValidDomain(cfg.domain) && cfg.feed == None
    requires page.meta.published.Some? && page.meta.tags == []
    ensures var entries := [Entry(["about.gmi"], true, Some(page))];
      && RunSpec(AsWritten, cfg, cwd, output, entries, None, None, year) == Err(MissingDir(output + ["tags"]))
      && RunSpec(Corrected, cfg, cwd, output, entries, None, None, year).Ok?
  {
    var entries := [Entry(["about.gmi"], true, Some(page))];
    AboutWalk(AsWritten, cfg, cwd, output, page);
    WalkGood(AsWritten, cfg, cwd, output, entries);
    var w := Walk(AsWritten, cfg, cwd, output, entries).value;
    assert RunSpec(AsWritten, cfg, cwd, output, entries, None, None, year)
        == RenderedSite(AsWritten, cfg, output, w, None, {[]}, None, None, year);
    assert TagDirs(AsWritten, {[]}, w.tagOrder) == {[]};
    AboutCorrected(cfg, cwd, output, page, None, None, year);
  }

  /** As written, the tag stage of a one-page capsule tagged `news` creates
      `tags` and nothing else. */
  lemma NewsTagStage(output: Path, w: Items)
    requires w.tagOrder != [] && forall t :: t in w.tagOrder ==> t in ["news"]
    ensures TagsWritten(AsWritten, output, {[]}, w.tagOrder) == Ok({[], ["tags"]})
  {
    AncestorsOfName("tags");
    assert ".." !in w.tagOrder;
    PagesBeforeFailureAt(AsWritten, output, {[]}, w.tagOrder);
    assert TagDirs(AsWritten, {[]}, w.tagOrder) == {[], ["tags"]};
  }

  /** As written, once the tag stage has created only `tags`, a gemlog index
      finds no `gemlog` to be written into. */
  lemma GemlogIndexWithoutGemlog(cfg: C.Config, output: Path, w: Items, gemlogIndex: Content.Page, year: int)
    requires Good(w) && TagsWritten(AsWritten, output, {[]}, w.tagOrder) == Ok({[], ["tags"]})
    ensures RenderedSite(AsWritten, cfg, output, w, None, {[]}, None, Some(gemlogIndex), year)
      == Err(MissingDir(output + ["gemlog"]))
  {
    assert WriteIndex(AsWritten, output, {[], ["tags"]}, None, []) == Ok({[], ["tags"]});
    assert WriteIndex(AsWritten, output, {[], ["tags"]}, Some(gemlogIndex), ["gemlog"]) == Err(MissingDir(output + ["gemlog"]));
  }

  /** A capsule of one tagged page and a gemlog index, without posts or an
      Atom feed: as written nothing creates `gemlog`, so writing the gemlog
      index stops the build; corrected, the build succeeds. */
  lemma EmptyGemlogFails(cfg: C.Config, cwd: Path, output: Path, page: Content.Page, gemlogIndex: Content.Page, year: int)
    requires Urls.ValidDomain(cfg.domain) && cfg.feed == None
    requires page.meta.published.Some? && page.meta.tags == ["news"]
    ensures var entries := [Entry(["about.gmi"], true, Some(page))];
      && RunSpec(AsWritten, cfg, cwd, output, entries, None, Some(gemlogIndex), year) == Err(MissingDir(output + ["gemlog"]))
      && RunSpec(Corrected, cfg, cwd, output, entries, None, Some(gemlogIndex), year).Ok?
  {
    var entries := [Entry(["about.gmi"], true, Some(page))];
    AboutWalk(AsWritten, cfg, cwd, output, page);
    WalkGood(AsWritten, cfg, cwd, output, entries);
    var w := Walk(AsWritten, cfg, cwd, output, entries).value;
    assert RunSpec(AsWritten, cfg, cwd, output, entries, None, Some(gemlogIndex), year)
        == RenderedSite(AsWritten, cfg, output, w, None, {[]}, None, Some(gemlogIndex), year);
    NewsTagStage(output, w);
    GemlogIndexWithoutGemlog(cfg, output, w, gemlogIndex, year);
    AboutCorrected(cfg, cwd, output, page, None, Some(gemlogIndex), year);
  }

  /** Corrected, a capsule of one published page `about.gmi` without a feed
      builds, whatever the index sources. */
  lemma AboutCorrected(cfg: C.Config, cwd: Path, output: Path, page: Content.Page,
                       indexFile: Option<Content.Page>, gemlogIndexFile: Option<Content.Page>, year: int)
    requires Urls.ValidDomain(cfg.domain) && cfg.feed == None && page.meta.published.Some?
    ensures RunSpec(Corrected, cfg, cwd, output, [Entry(["about.gmi"], true, Some(page))], indexFile, gemlogIndexFile, year).Ok?
  {
    AboutWalk(Corrected, cfg, cwd, output, page);
    CorrectedBareWalkBuilds(cfg, cwd, output, [Entry(["about.gmi"], true, Some(page))], indexFile, gemlogIndexFile, year);
  }

  /** Corrected, without a feed, a walk that created only the output
      directory leads to a build that succeeds. */
  lemma CorrectedBareWalkBuilds(cfg: C.Config, cwd: Path, output: Path, entries: seq<Entry>,
                                indexFile: Option<Content.Page>, gemlogIndexFile: Option<Content.Page>, year: int)
    requires cfg.feed == None
    requires Walk(Corrected, cfg, cwd, output, entries).Ok? && Walk(Corrected, cfg, cwd, output, entries).value.dirs == {[]}
    ensures RunSpec(Corrected, cfg, cwd, output, entries, indexFile, gemlogIndexFile, year).Ok?
  {
    assert forall t :: TagPageRel(Corrected, t) !in {[]};
    RunFails(Corrected, cfg, cwd, output, entries, indexFile, gemlogIndexFile, year);
  }

  /** `tags/foo.gmi/bar.gmi` is a document, processed when published, and
      rendered into the directory `tags/foo.gmi`. */
  lemma NestedPageIsProcessed(page: Content.Page)
    requires page.meta.published.Some?
    ensures var e := Entry(["tags", "foo.gmi", "bar.gmi"], true, Some(page));
      Classify(e) == Process(page) && !InGemlog(e.rel) && DirOf(e.rel) == ["tags", "foo.gmi"]
  {
    var e := Entry(["tags", "foo.gmi", "bar.gmi"], true, Some(page));
    var n := "bar.gmi";
    assert n[|n| - 1] == 'i' && n[|n| - 2] == 'm' && n[|n| - 3] == 'g' && n[|n| - 4] == '.';
    assert n[..|n| - 1] == "bar.gm";
    assert "bar.gm"[..5] == "bar.g";
    assert "bar.g"[..4] == "bar.";
    assert LastDot(n) == Some(3);
    assert n[4..] == "gmi";
    assert IsGmi(e.rel) && !Reserved(e.rel);
  }

  /** The walk of a capsule holding only `tags/foo.gmi/bar.gmi`, published,
      is the processing of that document. */
  lemma NestedStep(rev: Revision, cfg: C.Config, cwd: Path, output: Path, page: Content.Page)
    requires page.meta.published.Some?
    ensures var e := Entry(["tags", "foo.gmi", "bar.gmi"], true, Some(page));
      Walk(rev, cfg, cwd, output, [e]) == ProcessStep(rev, cfg, cwd, output, NoItems, e.rel, page)
  {
    var e := Entry(["tags", "foo.gmi", "bar.gmi"], true, Some(page));
    NestedPageIsProcessed(page);
    assert [e][..0] == [];
    assert Walk(rev, cfg, cwd, output, [e]) == Step(rev, cfg, cwd, output, NoItems, e);
  }

  /** The walk of a capsule holding only `tags/foo.gmi/bar.gmi`, published
      and tagged `foo`: rendering it creates `tags/foo.gmi`, and `foo` is the
      first tag. */
  lemma NestedWalk(rev: Revision, cfg: C.Config, cwd: Path, output: Path, page: Content.Page)
    requires Urls.ValidDomain(cfg.domain) && page.meta.published.Some? && page.meta.tags == ["foo"]
    ensures var w := Walk(rev, cfg, cwd, output, [Entry(["tags", "foo.gmi", "bar.gmi"], true, Some(page))]);
      && w.Ok? && ["tags", "foo.gmi"] in w.value.dirs
      && |w.value.tagOrder| > 0 && w.value.tagOrder[0] == "foo"
  {
    var rel := ["tags", "foo.gmi", "bar.gmi"];
    NestedPageIsProcessed(page);
    NestedStep(rev, cfg, cwd, output, page);
    var link := LinkFor(rev, cfg, cwd, rel, page.meta).value;
    var w := ProcessStep(rev, cfg, cwd, output, NoItems, rel, page);
    assert w.value.dirs == {} + Ancestors(["tags", "foo.gmi"]);
    assert StartsWith(["tags", "foo.gmi"], ["tags", "foo.gmi"]);
    assert w.value.tagOrder == AddLinks(map[], [], page.meta.tags, link).1;
    FirstTagsOrder(page.meta.tags, link);
    AddLinksFrom(map[], [], page.meta.tags, link);
    assert w.value.tagOrder[0] in w.value.tagOrder;
  }

  /** The page of the tag `foo` is `tags/foo.gmi`, in either revision. */
  lemma FooTagPage(rev: Revision)
    ensures TagPageRel(rev, "foo") == ["tags", "foo.gmi"]
  {
    assert forall i :: 0 <= i < |"foo"| ==> "foo"[i] != '.';
    assert LastDot("foo") == None;
    assert SetExtension("foo", "gmi") == "foo" + "." + "gmi" == "foo.gmi";
    if rev == AsWritten {
      assert "foo" != ".." && "foo" != "." && "foo" != "";
      assert PushWithExtension(["tags"], "foo", "gmi") == ["tags"] + ["foo.gmi"];
    } else {
      assert "foo" + ".gmi" == "foo.gmi";
    }
  }

  /** A capsule holding only `tags/foo.gmi/bar.gmi`, published and tagged
      `foo`, with no feed: rendering the document creates the directory
      `tags/foo.gmi`, the very path the page of `foo` is then written at, so
      the build stops there, in either revision. */
  lemma TagPageOntoRenderedDirectory(rev: Revision, cfg: C.Config, cwd: Path, output: Path, page: Content.Page, year: int)
    requires Urls.ValidDomain(cfg.domain) && cfg.feed == None
    requires page.meta.published.Some? && page.meta.tags == ["foo"]
    ensures var entries := [Entry(["tags", "foo.gmi", "bar.gmi"], true, Some(page))];
      RunSpec(rev, cfg, cwd, output, entries, None, None, year) == Err(IsDirectory(output + ["tags", "foo.gmi"]))
  {
    var entries := [Entry(["tags", "foo.gmi", "bar.gmi"], true, Some(page))];
    NestedWalk(rev, cfg, cwd, output, page);
    WalkGood(rev, cfg, cwd, output, entries);
    var w := Walk(rev, cfg, cwd, output, entries).value;
    FooTagPage(rev);
    assert PageWriteFails(rev, w.dirs, w.tagOrder[0]);
    assert PagesBeforeFailure(rev, w.dirs, w.tagOrder) == 0;
    assert TagsWritten(rev, output, w.dirs, w.tagOrder) == Err(IsDirectory(output + ["tags", "foo.gmi"]));
    assert RunSpec(rev, cfg, cwd, output, entries, None, None, year)
        == RenderedSite(rev, cfg, output, w, None, w.dirs, None, None, year);
  }

  /** The `Gemini` feed setting builds the same site as no feed setting. */
  lemma GeminiFeedWritesNothing(rev: Revision, cfg: C.Config, cwd: Path, output: Path, entries: seq<Entry>,
                                indexFile: Option<Content.Page>, gemlogIndexFile: Option<Content.Page>, year: int)
    requires cfg.feed == Some(C.Gemini)
    ensures RunSpec(rev, cfg, cwd, output, entries, indexFile, gemlogIndexFile, year).Ok? ==>
      RunSpec(rev, cfg, cwd, output, entries, indexFile, gemlogIndexFile, year).value.atom.None?
    ensures var none := cfg.(feed := None);
      Walk(rev, none, cwd, output, entries) == Walk(rev, cfg, cwd, output, entries)
  {
    WalkIgnoresFeed(rev, cfg, None, cwd, output, entries);
  }

  /** `Both` builds the same feed as `Atom`: no Gemini feed is written. */
  lemma BothFeedIsAtom(rev: Revision, cfg: C.Config, cwd: Path, output: Path, entries: seq<Entry>,
                       indexFile: Option<Content.Page>, gemlogIndexFile: Option<Content.Page>, year: int)
    requires cfg.feed == Some(C.Both)
    ensures var atomOnly := cfg.(feed := Some(C.Atom));
      var a := RunSpec(rev, cfg, cwd, output, entries, indexFile, gemlogIndexFile, year);
      var b := RunSpec(rev, atomOnly, cwd, output, entries, indexFile, gemlogIndexFile, year);
      a.Err? <==> b.Err?
  {
    var atomOnly := cfg.(feed := Some(C.Atom));
    WalkIgnoresFeed(rev, cfg, Some(C.Atom), cwd, output, entries);
    RunFails(rev, cfg, cwd, output, entries, indexFile, gemlogIndexFile, year);
    RunFails(rev, atomOnly, cwd, output, entries, indexFile, gemlogIndexFile, year);
  }

  /** A document's link does not depend on the feed setting, in either
      revision. */
  lemma LinkIgnoresFeed(rev: Revision, cfg: C.Config, feed: Option<C.Feed>, cwd: Path, rel: Path, meta: Content.Meta)
    requires meta.published.Some?
    ensures LinkFor(rev, cfg.(feed := feed), cwd, rel, meta) == LinkFor(rev, cfg, cwd, rel, meta)
  {
    assert C.Url(cfg.(feed := feed)) == C.Url(cfg);
  }

  /** A document's rendering does not depend on the feed setting. */
  lemma RenderedIgnoresFeed(cfg: C.Config, feed: Option<C.Feed>, page: Content.Page, out: Path, depth: nat)
    requires page.meta.published.Some?
    ensures Content.RootText(cfg.(feed := feed)) == Content.RootText(cfg)
    ensures var root := Content.RootText(cfg);
      Content.Rendered(cfg.(feed := feed), page, out, depth, None, root) == Content.Rendered(cfg, page, out, depth, None, root)
  {
    var cfg2 := cfg.(feed := feed);
    assert C.Url(cfg2) == C.Url(cfg);
    var year := Times.Year(page.meta.published.value);
    assert Lib.FooterLines(cfg2, year) == Lib.FooterLines(cfg, year);
  }

  /** One document is linked, rendered and filed the same whatever the feed
      setting: these read only the domain, the path, the author, the licence
      and the footer settings. */
  lemma ProcessIgnoresFeed(rev: Revision, cfg: C.Config, feed: Option<C.Feed>, cwd: Path, output: Path, s: Items,
                           rel: Path, page: Content.Page)
    requires page.meta.published.Some?
    ensures ProcessStep(rev, cfg.(feed := feed), cwd, output, s, rel, page) == ProcessStep(rev, cfg, cwd, output, s, rel, page)
  {
    LinkIgnoresFeed(rev, cfg, feed, cwd, rel, page.meta);
    RenderedIgnoresFeed(cfg, feed, page, output + rel, |rel|);
  }

  /** One entry is handled the same whatever the feed setting. */
  lemma StepIgnoresFeed(rev: Revision, cfg: C.Config, feed: Option<C.Feed>, cwd: Path, output: Path, s: Items, e: Entry)
    ensures Step(rev, cfg.(feed := feed), cwd, output, s, e) == Step(rev, cfg, cwd, output, s, e)
  {
    match Classify(e)
    case Process(page) => ProcessIgnoresFeed(rev, cfg, feed, cwd, output, s, e.rel, page);
    case Skip =>
    case Drop =>
    case Copy =>
  }

  /** The walk does not look at the feed setting. */
  lemma {:induction false} WalkIgnoresFeed(rev: Revision, cfg: C.Config, feed: Option<C.Feed>, cwd: Path, output: Path, entries: seq<Entry>)
    ensures Walk(rev, cfg.(feed := feed), cwd, output, entries) == Walk(rev, cfg, cwd, output, entries)
    decreases |entries|
  {
    if |entries| > 0 {
      var init := entries[..|entries| - 1];
      WalkIgnoresFeed(rev, cfg, feed, cwd, output, init);
      if Walk(rev, cfg, cwd, output, init).Ok? {
        StepIgnoresFeed(rev, cfg, feed, cwd, output, Walk(rev, cfg, cwd, output, init).value, entries[|entries| - 1]);
      }
    }
  }

  /** A successful build writes one tag page per tag, each tag once, and the
      Atom feed only when asked for. */
  lemma RunSiteShape(rev: Revision, cfg: C.Config, cwd: Path, output: Path, entries: seq<Entry>,
                     indexFile: Option<Content.Page>, gemlogIndexFile: Option<Content.Page>, year: int)
    requires RunSpec(rev, cfg, cwd, output, entries, indexFile, gemlogIndexFile, year).Ok?
    ensures var site := RunSpec(rev, cfg, cwd, output, entries, indexFile, gemlogIndexFile, year).value;
      && |site.tagPages| == |site.items.tagOrder|
      && (forall t :: t in site.items.tags <==> t in site.items.tagOrder)
      && (site.atom.Some? <==> WantsAtom(cfg.feed))
      && (site.index.Some? <==> indexFile.Some?)
      && (site.gemlogIndex.Some? <==> gemlogIndexFile.Some?)
  {
    WalkGood(rev, cfg, cwd, output, entries);
  }
}
