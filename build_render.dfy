/** The second half of `zond build` (src/command/build.rs): the tag pages, the
    tag index, the home index, the gemlog index and the two feeds, rendered
    from what the walk collected. The copyright year is the clock reading the
    caller passes in. */
module BuildRender {
  import opened Wrappers
  import opened Paths
  import opened Times
  import Text
  import Urls
  import C = Config
  import Licenses
  import Content
  import Lib
  import opened Links
  import opened BuildItems

  // ---- Text made of one piece per element ----

  /** The pieces for `xs`, one after another. */
  function Block<T>(xs: seq<T>, f: T --> string): string
    requires forall i :: 0 <= i < |xs| ==> f.requires(xs[i])
  {
    if |xs| == 0 then "" else Block(xs[..|xs| - 1], f) + f(xs[|xs| - 1])
  }

  lemma BlockStep<T>(head: string, xs: seq<T>, i: nat, f: T --> string)
    requires i < |xs| && forall k :: 0 <= k < |xs| ==> f.requires(xs[k])
    ensures head + Block(xs[..i], f) + f(xs[i]) == head + Block(xs[..i + 1], f)
  {
    assert xs[..i + 1][..i] == xs[..i];
  }

  /** The `push_str` loops: appends the piece for each element in turn. */
  method AppendBlock<T>(head: string, xs: seq<T>, f: T --> string) returns (r: string)
    requires forall i :: 0 <= i < |xs| ==> f.requires(xs[i])
    ensures r == head + Block(xs, f)
  {
    r := head;
    var i := 0;
    while i < |xs|
      invariant 0 <= i <= |xs|
      invariant r == head + Block(xs[..i], f)
    {
      BlockStep(head, xs, i, f);
      r := r + f(xs[i]);
      i := i + 1;
    }
    assert xs[..i] == xs;
  }

  // ---- The footer build.rs writes itself ----

  function LicenseSentence(l: Licenses.License): string {
    "All content for this site is release under the " + Licenses.Display(l) + " license.\n"
  }

  function CopyrightText(cfg: C.Config, year: int): string {
    "© " + Text.IntToString(year) + " by " + cfg.author.name + "\n"
  }

  function MailText(cfg: C.Config): string {
    if cfg.showEmail && cfg.author.email.Some? then "=> mailto:" + cfg.author.email.value + " Contact\n" else ""
  }

  /** The footer of the tag pages, the tag index and the gemlog index: the
      licence sentence when a licence is configured, the copyright line, and
      the contact link when the e-mail is shown and known. */
  function BuildFooter(cfg: C.Config, year: int): string {
    (if cfg.license.Some? then LicenseSentence(cfg.license.value) else "")
      + CopyrightText(cfg, year) + MailText(cfg)
  }

  // ---- Tag pages and the tag index ----

  /** The page for one tag: its links in stored order, then the way back. */
  function TagPageText(cfg: C.Config, tag: string, links: seq<Link>, year: int): string {
    "# " + cfg.title + "\n\n### Pages tagged " + tag + "\n" + Block(links, ToGmi)
      + "\n=> . All tags\n" + "=> .. Home\n" + BuildFooter(cfg, year)
  }

  /** The link block of a tag page is its links' display lines, in order. */
  lemma {:induction false} LinkBlockIsDisplayLines(links: seq<Link>)
    ensures Block(links, ToGmi) == Lib.LinesText(Lib.LinkLines(links))
  {
    if |links| > 0 {
      var init := links[..|links| - 1];
      LinkBlockIsDisplayLines(init);
      assert Lib.LinkLines(links) == Lib.LinkLines(init) + [Links.Display(links[|links| - 1])];
      Lib.LinesTextAppend(Lib.LinkLines(init), Links.Display(links[|links| - 1]));
    }
  }

  function TagIndexLine(t: string): string {
    "=> " + t + ".gmi " + t + "\n"
  }

  /** The index of all tags: one line per tag, in the order given. */
  function TagIndexText(cfg: C.Config, order: seq<string>, year: int): string {
    "# " + cfg.title + "\n\n### All tags\n" + Block(order, TagIndexLine) + "\n=> .. Home\n" + BuildFooter(cfg, year)
  }

  /** Where a tag's page goes, relative to the output directory: as written,
      the tag pushed onto `tags` with its extension set to `gmi` (the path
      the Atom categories use); corrected, `tags/<tag>.gmi`, the name the
      tag index links. */
  function TagPageRel(rev: Revision, tag: string): (r: Path)
    ensures (|r| == 2 && r[0] == "tags") || r == ["tags.gmi"]
  {
    match rev
    case AsWritten =>
      TagsWithExtension();
      PushWithExtension(["tags"], tag, "gmi")
    case Corrected => ["tags", tag + ".gmi"]
  }

  /** `tags` with its extension set to `gmi` is `tags.gmi`: where the page
      of `.` and of the empty tag goes. */
  lemma TagsWithExtension()
    ensures FileName(["tags"]) == Some("tags")
    ensures PushWithExtension(["tags"], ".", "gmi") == ["tags.gmi"]
    ensures PushWithExtension(["tags"], "", "gmi") == ["tags.gmi"]
  {
    var dir := ["tags"];
    assert FileName(dir) == Some("tags");
    assert dir[..|dir| - 1] == [];
    assert LastDot("tags"[..3]) == None;
    assert SetExtension("tags", "gmi") == "tags.gmi";
  }

  function TagPageDest(rev: Revision, output: Path, tag: string): Path {
    output + TagPageRel(rev, tag)
  }

  /** Only the tag `..`, and only as written, sends its page onto a path
      ending in `..`: `tags/..`, which is the output directory itself. */
  lemma TagPageIsDirectory(rev: Revision, output: Path, tag: string)
    ensures NamesDirectory(TagPageDest(rev, output, tag)) <==> rev == AsWritten && tag == ".."
    ensures rev == AsWritten && tag == ".." ==> TagPageDest(rev, output, tag) == output + ["tags", ".."]
  {
    var dir := ["tags"];
    assert FileName(dir) == Some("tags");
    if rev == AsWritten {
      PushWithExtensionLast(dir, tag, "gmi");
    } else {
      var n := tag + ".gmi";
      assert n[|n| - 1] == 'i';
    }
  }

  /** As written, the tags `.` and `..` and the empty tag are not file names
      below `tags`: the page of `.` and of the empty tag is `tags.gmi`, beside
      the `tags` directory, and the page of `..` is `tags/..`. */
  lemma DotTagPages(output: Path)
    ensures TagPageDest(AsWritten, output, ".") == output + ["tags.gmi"]
    ensures TagPageDest(AsWritten, output, "") == output + ["tags.gmi"]
    ensures TagPageDest(AsWritten, output, "..") == output + ["tags", ".."]
  {
    TagsWithExtension();
  }

  /** Writing a tag's page fails when its path names a directory: it ends
      in `..`, or the walk rendered a document below a directory of that
      name. `dirs` are the directories when the tag stage starts. */
  predicate PageWriteFails(rev: Revision, dirs: set<Path>, tag: string) {
    NamesDirectory(TagPageRel(rev, tag)) || TagPageRel(rev, tag) in dirs
  }

  /** A tag page's write fails exactly when, as written, the tag is `..`, or
      when a directory already occupies its path. */
  lemma PageWriteFailsWhen(rev: Revision, dirs: set<Path>, tag: string)
    ensures PageWriteFails(rev, dirs, tag) <==> (rev == AsWritten && tag == "..") || TagPageRel(rev, tag) in dirs
  {
    TagPageIsDirectory(rev, [], tag);
    assert TagPageDest(rev, [], tag) == TagPageRel(rev, tag);
  }

  /** How many tag pages `render_tags` writes before a write fails: the
      index of the first tag whose page cannot be written, or all of them. */
  function PagesBeforeFailure(rev: Revision, dirs: set<Path>, order: seq<string>): (n: nat)
    ensures n <= |order|
    ensures forall i :: 0 <= i < n ==> !PageWriteFails(rev, dirs, order[i])
    ensures n < |order| ==> PageWriteFails(rev, dirs, order[n])
  {
    if |order| == 0 then 0
    else if PageWriteFails(rev, dirs, order[0]) then 0
    else 1 + PagesBeforeFailure(rev, dirs, order[1..])
  }

  /** A tag page fails to be written exactly when some tag's page cannot be
      written: as written the tag `..`, whose page is `tags/..`, or a tag
      whose page path is a directory the walk created. */
  lemma PagesBeforeFailureAt(rev: Revision, output: Path, dirs: set<Path>, order: seq<string>)
    ensures PagesBeforeFailure(rev, dirs, order) < |order|
      <==> (rev == AsWritten && ".." in order) || exists t :: t in order && TagPageRel(rev, t) in dirs
    ensures var n := PagesBeforeFailure(rev, dirs, order);
      n < |order| ==>
        || (rev == AsWritten && order[n] == ".." && TagPageDest(rev, output, order[n]) == output + ["tags", ".."])
        || TagPageRel(rev, order[n]) in dirs
  {
    var n := PagesBeforeFailure(rev, dirs, order);
    if n < |order| {
      PageWriteFailsWhen(rev, dirs, order[n]);
      TagPageIsDirectory(rev, output, order[n]);
    }
    if rev == AsWritten && ".." in order {
      var i :| 0 <= i < |order| && order[i] == "..";
      PageWriteFailsWhen(rev, dirs, order[i]);
    }
    if exists t :: t in order && TagPageRel(rev, t) in dirs {
      var t :| t in order && TagPageRel(rev, t) in dirs;
      var i :| 0 <= i < |order| && order[i] == t;
      assert PageWriteFails(rev, dirs, order[i]);
    }
  }

  /** A tag's page: where it goes and what it says. */
  function TagPageFile(rev: Revision, cfg: C.Config, output: Path, tags: Tags, tag: string, year: int): (Path, string)
    requires tag in tags
  {
    (TagPageDest(rev, output, tag), TagPageText(cfg, tag, tags[tag], year))
  }

  /** The tag pages, one per tag in the order given. */
  function TagPages(rev: Revision, cfg: C.Config, output: Path, tags: Tags, order: seq<string>, year: int): (r: seq<(Path, string)>)
    requires forall t :: t in order ==> t in tags
    ensures |r| == |order|
    ensures forall i :: 0 <= i < |order| ==> r[i] == TagPageFile(rev, cfg, output, tags, order[i], year)
  {
    if |order| == 0 then [] else
      TagPages(rev, cfg, output, tags, order[..|order| - 1], year)
        + [TagPageFile(rev, cfg, output, tags, order[|order| - 1], year)]
  }

  lemma TagPagesSnoc(rev: Revision, cfg: C.Config, output: Path, tags: Tags, order: seq<string>, i: nat, year: int)
    requires i < |order| && forall t :: t in order ==> t in tags
    ensures forall t :: t in order[..i] ==> t in tags
    ensures TagPages(rev, cfg, output, tags, order[..i + 1], year)
      == TagPages(rev, cfg, output, tags, order[..i], year) + [TagPageFile(rev, cfg, output, tags, order[i], year)]
  {
    assert order[..i + 1][..i] == order[..i];
  }

  /** The tag index, relative to the output directory. */
  const TagIndexRel: Path := ["tags", "index.gmi"]

  function TagIndexPath(output: Path): Path {
    output + TagIndexRel
  }

  /** One tag page, its links written one by one. */
  method TagPage(cfg: C.Config, tag: string, links: seq<Link>, year: int) returns (page: string)
    ensures page == TagPageText(cfg, tag, links, year)
  {
    var head := "# " + cfg.title + "\n\n### Pages tagged " + tag + "\n";
    page := AppendBlock(head, links, ToGmi);
    page := page + "\n=> . All tags\n";
    page := page + "=> .. Home\n";
    page := page + BuildFooter(cfg, year);
  }

  /** The output directories once the tag pages are written: as written,
      `tags` is created inside the loop, so only when there is a tag;
      corrected, before the loop. */
  function TagDirs(rev: Revision, dirs: set<Path>, order: seq<string>): set<Path> {
    match rev
    case AsWritten => if |order| > 0 then dirs + Ancestors(["tags"]) else dirs
    case Corrected => dirs + Ancestors(["tags"])
  }

  /** The `create_dir_all` at the head of the tag loop, as written: it makes
      `tags` unless it exists. Corrected, the directory was made before the
      loop. */
  method MakeTagsDir(rev: Revision, dirs: set<Path>, made: set<Path>, order: seq<string>, i: nat)
    returns (made': set<Path>)
    requires Rooted(dirs) && i < |order|
    requires made == TagDirs(rev, dirs, order[..i])
    ensures made' == TagDirs(rev, dirs, order[..i + 1])
  {
    AncestorsOfName("tags");
    made' := made;
    if rev == AsWritten && ["tags"] !in made {
      made' := made + Ancestors(["tags"]);
    }
  }

  /** `tags` and the output directory are the only directories the tag stage
      creates, so any other path is a directory during the stage exactly when
      it was one before. */
  lemma TagDirsElsewhere(rev: Revision, dirs: set<Path>, order: seq<string>, rel: Path)
    requires |rel| > 0 && rel != ["tags"]
    ensures rel in TagDirs(rev, dirs, order) <==> rel in dirs
  {
    AncestorsOfName("tags");
  }

  /** One round of the tag loop before the page is written: the tag's index
      line, the `tags` directory, and the page's path and text. */
  method TagStep(rev: Revision, cfg: C.Config, output: Path, tags: Tags, order: seq<string>, dirs: set<Path>,
                 i: nat, indexPage: string, made: set<Path>, head: string, year: int)
    returns (indexPage': string, made': set<Path>, rel: Path, page: string)
    requires Enumerates(order, tags) && Rooted(dirs) && i < |order|
    requires indexPage == head + Block(order[..i], TagIndexLine)
    requires made == TagDirs(rev, dirs, order[..i])
    ensures indexPage' == head + Block(order[..i + 1], TagIndexLine)
    ensures made' == TagDirs(rev, dirs, order[..i + 1])
    ensures rel == TagPageRel(rev, order[i])
    ensures WriteFile(output, made', rel).Err? <==> PageWriteFails(rev, dirs, order[i])
    ensures page == TagPageText(cfg, order[i], tags[order[i]], year)
  {
    var tag := order[i];
    BlockStep(head, order, i, TagIndexLine);
    indexPage' := indexPage + TagIndexLine(tag);
    made' := MakeTagsDir(rev, dirs, made, order, i);
    rel := TagPageRel(rev, tag);
    TagDirsElsewhere(rev, dirs, order[..i + 1], rel);
    page := TagPage(cfg, tag, tags[tag], year);
  }

  /** The tag loop of `render_tags`: for each tag in `order`, its line in the
      index and its page, with `tags` created on the way (as written). The
      loop stops at the first page whose write fails, at `failed`; the pages
      before it have been written. */
  method TagLoop(rev: Revision, cfg: C.Config, output: Path, tags: Tags, order: seq<string>,
                 dirs: set<Path>, made0: set<Path>, head: string, year: int)
    returns (indexPage: string, pages: seq<(Path, string)>, made: set<Path>, failed: Option<Path>)
    requires Enumerates(order, tags) && Rooted(dirs)
    requires made0 == TagDirs(rev, dirs, [])
    ensures var n := PagesBeforeFailure(rev, dirs, order);
      && pages == TagPages(rev, cfg, output, tags, order[..n], year)
      && (failed.None? <==> n == |order|)
      && (failed.Some? ==> failed.value == TagPageDest(rev, output, order[n]))
    ensures failed.None? ==> indexPage == head + Block(order, TagIndexLine)
    ensures failed.None? ==> made == TagDirs(rev, dirs, order)
  {
    made := made0;
    indexPage := head;
    pages := [];
    failed := None;
    ghost var stop := PagesBeforeFailure(rev, dirs, order);
    var i := 0;
    assert order[..0] == [];
    while i < |order|
      invariant 0 <= i <= |order|
      invariant i <= stop
      invariant indexPage == head + Block(order[..i], TagIndexLine)
      invariant pages == TagPages(rev, cfg, output, tags, order[..i], year)
      invariant made == TagDirs(rev, dirs, order[..i])
    {
      var rel, page;
      indexPage, made, rel, page := TagStep(rev, cfg, output, tags, order, dirs, i, indexPage, made, head, year);
      var w := WriteFile(output, made, rel);
      if w.Err? {
        assert stop == i;
        failed := Some(output + rel);
        return;
      }
      TagPagesSnoc(rev, cfg, output, tags, order, i, year);
      pages := pages + [(output + rel, page)];
      i := i + 1;
    }
    assert stop == |order| && order[..i] == order;
  }

  /** What the tag stage leaves: the error of the first tag page that cannot
      be written, or else the directories once the index has been written
      into `tags`, or the error of writing it (`tags` missing, or
      `tags/index.gmi` a directory). */
  function TagsWritten(rev: Revision, output: Path, dirs: set<Path>, order: seq<string>): Result<set<Path>, BuildError> {
    var n := PagesBeforeFailure(rev, dirs, order);
    if n < |order| then Err(IsDirectory(TagPageDest(rev, output, order[n])))
    else match WriteInto(rev, output, TagDirs(rev, dirs, order), ["tags"])
      case Err(e) => Err(e)
      case Ok(made) => WriteFile(output, made, TagIndexRel)
  }

  /** `render_tags`: the tag index and one page per tag, the tags visited in
      the map's iteration order `order`, starting from the output directories
      `dirs`. `pages` are the pages written; `written` is the directories
      after the index has been written into `tags`, or the error that
      stopped the stage. */
  method RenderTags(rev: Revision, cfg: C.Config, output: Path, tags: Tags, order: seq<string>,
                    dirs: set<Path>, year: int)
    returns (index: (Path, string), pages: seq<(Path, string)>, written: Result<set<Path>, BuildError>)
    requires Enumerates(order, tags) && Rooted(dirs)
    ensures written == TagsWritten(rev, output, dirs, order)
    ensures pages == TagPages(rev, cfg, output, tags, order[..PagesBeforeFailure(rev, dirs, order)], year)
    ensures written.Ok? ==> index == (TagIndexPath(output), TagIndexText(cfg, order, year))
    ensures written.Ok? ==> pages == TagPages(rev, cfg, output, tags, order, year)
  {
    var made := dirs;
    if rev == Corrected {
      made := made + Ancestors(["tags"]);
    }
    var head := "# " + cfg.title + "\n\n### All tags\n";
    var indexPage, failed;
    indexPage, pages, made, failed := TagLoop(rev, cfg, output, tags, order, dirs, made, head, year);
    var text := indexPage + "\n=> .. Home\n" + BuildFooter(cfg, year);
    index := (TagIndexPath(output), text);
    if failed.Some? {
      written := Err(IsDirectory(failed.value));
      return;
    }
    assert text == TagIndexText(cfg, order, year);
    assert order[..|order|] == order;
    written := WriteInto(rev, output, made, ["tags"]);
    if written.Ok? {
      written := WriteFile(output, written.value, TagIndexRel);
    }
  }

  /** A tag index line names its tag: different tags give different lines. */
  lemma TagIndexLineInjective(a: string, b: string)
    requires TagIndexLine(a) == TagIndexLine(b)
    ensures a == b
  {
    var la := TagIndexLine(a);
    assert |la| == 9 + 2 * |a|;
    assert |a| == |b|;
    assert a == la[3..3 + |a|];
    assert b == TagIndexLine(b)[3..3 + |b|];
  }

  /** The tag index has a line for a tag exactly when the tag is known, and
      only one. */
  lemma TagIndexListsEachTagOnce(order: seq<string>, tags: Tags, t: string)
    requires Enumerates(order, tags)
    ensures t in tags <==> exists i :: 0 <= i < |order| && TagIndexLine(order[i]) == TagIndexLine(t)
    ensures forall i, j ::
      0 <= i < j < |order| && TagIndexLine(order[i]) == TagIndexLine(t) ==> TagIndexLine(order[j]) != TagIndexLine(t)
  {
    if exists i :: 0 <= i < |order| && TagIndexLine(order[i]) == TagIndexLine(t) {
      var i :| 0 <= i < |order| && TagIndexLine(order[i]) == TagIndexLine(t);
      TagIndexLineInjective(order[i], t);
    }
    if t in tags {
      var i :| 0 <= i < |order| && order[i] == t;
    }
    forall i, j | 0 <= i < j < |order| && TagIndexLine(order[i]) == TagIndexLine(t)
      ensures TagIndexLine(order[j]) != TagIndexLine(t)
    {
      TagIndexLineInjective(order[i], t);
      if TagIndexLine(order[j]) == TagIndexLine(t) {
        TagIndexLineInjective(order[j], t);
      }
    }
  }

  /** As written, the index links `<tag>.gmi` but the page is saved with its
      extension set to `gmi`: for a tag with a dot, such as `v1.2`, the page
      is `tags/v1.gmi` while the index links `v1.2.gmi`, a file that is not
      written. */
  lemma DottedTagPage(output: Path)
    ensures TagPageDest(AsWritten, output, "v1.2") == output + ["tags", "v1.gmi"]
    ensures TagIndexLine("v1.2") == "=> v1.2.gmi v1.2\n"
    ensures TagIndexTarget("v1.2") != FileName(TagPageDest(AsWritten, output, "v1.2")).value
  {
    var name := "v1.2";
    assert name[|name| - 1] == '2';
    assert name[..|name| - 1] == "v1.";
    assert LastDot("v1.") == Some(2);
    assert LastDot(name) == Some(2);
    assert name[..2] == "v1";
    assert SetExtension(name, "gmi") == "v1" + "." + "gmi";
    assert "v1" + "." + "gmi" == "v1.gmi";
    assert TagIndexTarget(name) == "v1.2.gmi";
    assert FileName(output + ["tags", "v1.gmi"]) == Some("v1.gmi");
    assert |"v1.2.gmi"| != |"v1.gmi"|;
  }

  /** The file a tag index line points at, relative to `tags/`. */
  function TagIndexTarget(tag: string): (r: string)
    ensures TagIndexLine(tag) == "=> " + r + " " + tag + "\n"
  {
    tag + ".gmi"
  }

  /** Corrected, every line of the tag index points at the file the tag's
      page is saved as, whatever the tag. */
  lemma CorrectedTagPageIsLinked(output: Path, tag: string)
    ensures FileName(TagPageDest(Corrected, output, tag)) == Some(TagIndexTarget(tag))
  {
    var n := tag + ".gmi";
    assert n[|n| - 1] == 'i';
  }

  /** A tag's file name starts as the tag does and ends in `gmi`. */
  lemma TagFileNameEnds(tag: string)
    requires |tag| > 0 && tag[0] != '/'
    ensures var name := Content.TagFileName(tag);
      |name| > 0 && name[0] == tag[0] && name[|name| - 1] == 'i'
  {
    match LastDot(tag)
    case Some(k) =>
    case None =>
  }

  /** The configured path the Atom categories start from. */
  function CategoryBase(cfg: C.Config): string {
    match cfg.path case Some(p) => p case None => "/"
  }

  /** The category's path is the page's path below the output directory,
      pushed onto the configured path. */
  predicate CategoryMatchesPage(cfg: C.Config, tag: string) {
    Content.TagPagePath(cfg, tag) == PushStr(CategoryBase(cfg), Join(TagPageRel(AsWritten, tag)))
  }

  /** `.` and the empty tag: both sides are `tags.gmi`. */
  lemma CategoryOfDotTag(cfg: C.Config, tag: string)
    requires tag == "." || tag == ""
    ensures CategoryMatchesPage(cfg, tag)
  {
    TagsWithExtension();
    assert TagPageRel(AsWritten, tag) == ["tags.gmi"];
    assert Content.TagPagePath(cfg, tag) == PushStr(CategoryBase(cfg), "tags") + ".gmi";
  }

  /** `..`: both sides are `tags/..`. */
  lemma CategoryOfDotDotTag(cfg: C.Config)
    ensures CategoryMatchesPage(cfg, "..")
  {
    assert TagPageRel(AsWritten, "..") == ["tags", ".."];
    assert Join(["tags", ".."]) == Join(["tags", ".."][..1]) + "/" + "..";
    assert Content.TagPagePath(cfg, "..") == PushStr(PushStr(CategoryBase(cfg), "tags"), "..");
  }

  /** Any other tag: both sides are `tags/` and the tag with its extension
      set to `gmi`. */
  lemma CategoryOfNamedTag(cfg: C.Config, tag: string)
    requires |tag| > 0 && tag[0] != '/' && tag != "." && tag != ".."
    ensures CategoryMatchesPage(cfg, tag)
  {
    var name := Content.TagFileName(tag);
    TagFileNameEnds(tag);
    assert TagPageRel(AsWritten, tag) == ["tags", name];
    assert Join(["tags", name]) == Join(["tags", name][..1]) + "/" + name;
    assert Content.TagPagePath(cfg, tag) == PushStr(CategoryBase(cfg), "tags") + "/" + name;
  }

  /** As written, a tag's Atom category names the path its page is saved
      at: the category's path is the page's path below the output directory,
      pushed onto the configured path (or `/`). For `.` and the empty tag
      both are `tags.gmi`; for `..` both are `tags/..`. */
  lemma CategoryNamesTagPage(cfg: C.Config, output: Path, tag: string)
    requires tag == "" || tag[0] != '/'
    ensures var dest := TagPageDest(AsWritten, output, tag);
      && StartsWith(dest, output)
      && Content.TagPagePath(cfg, tag) == PushStr(CategoryBase(cfg), Join(dest[|output|..]))
  {
    var dest := TagPageDest(AsWritten, output, tag);
    assert dest[|output|..] == TagPageRel(AsWritten, tag);
    if tag == "." || tag == "" {
      CategoryOfDotTag(cfg, tag);
    } else if tag == ".." {
      CategoryOfDotDotTag(cfg);
    } else {
      CategoryOfNamedTag(cfg, tag);
    }
  }

  /** Corrected, a page's own tag links reach the tag's page: from a page at
      the top of the capsule, `tags/<tag>.gmi` names the file the page is
      saved as. */
  lemma CorrectedTagLineReachesPage(output: Path, tag: string, root: string)
    ensures Content.TagLine(tag, 1, root) == "=> tags/" + FileName(TagPageDest(Corrected, output, tag)).value + " " + tag
  {
    CorrectedTagPageIsLinked(output, tag);
  }

  // ---- The home index ----

  /** The slug of a post's source file, as `file_name` of its path gives it. */
  lemma PostFileName(title: string)
    ensures FileName(Content.GetPath(title, Content.GemlogPost)) == Some(Content.Slug(title))
  {
    var s := Content.Slug(title);
    assert s[|s| - 4..] == ".gmi";
    assert s != "" && s != "..";
  }

  function IndexPostLine(m: Content.Meta): string
    requires m.published.Some?
  {
    "=> gemlog/" + Content.Slug(m.title) + " " + DateString(m.published.value) + " - " + m.title + "\n"
  }

  /** The posts the home index lists: the newest `entries` of them. */
  function IndexPosts(cfg: C.Config, posts: Posts): (r: seq<Content.Meta>)
    ensures |r| == if cfg.entries < |posts| then cfg.entries else |posts|
    ensures forall i :: 0 <= i < |r| ==> r[i] == posts[|posts| - 1 - i].1
  {
    var num := if cfg.entries < |posts| then cfg.entries else |posts|;
    NewestFirst(posts)[..num]
  }

  /** What replaces `{% posts %}`. */
  function PostsListing(cfg: C.Config, posts: Posts): string
    requires AllPublished(posts)
  {
    "### Gemlog posts\n" + Block(IndexPosts(cfg, posts), IndexPostLine) + "=> gemlog/ All posts"
  }

  /** The footer of the home index: the licence sentence comes after a blank
      line, and without a licence the copyright line is not preceded by any
      line break. */
  function IndexFooter(cfg: C.Config, year: int): string {
    (if cfg.license.Some? then "\n\n" + LicenseSentence(cfg.license.value) else "")
      + CopyrightText(cfg, year) + MailText(cfg)
  }

  /** The title heading and the page's own text, with every `{% posts %}`
      replaced by the post listing. */
  function IndexBody(cfg: C.Config, page: Content.Page, posts: Posts): string
    requires AllPublished(posts)
  {
    Text.ReplaceAll("# " + cfg.title + "\n\n" + page.content, "{% posts %}", PostsListing(cfg, posts))
  }

  function IndexText(cfg: C.Config, page: Content.Page, posts: Posts, year: int): string
    requires AllPublished(posts)
  {
    IndexBody(cfg, page, posts) + IndexFooter(cfg, year)
  }

  /** `render_index`: `indexFile` is what `Page::from_path` gives for
      `content/index.gmi`; nothing is written when it is `None`. */
  method RenderIndex(cfg: C.Config, output: Path, indexFile: Option<Content.Page>, posts: Posts, year: int)
    returns (r: Option<(Path, string)>)
    requires AllPublished(posts)
    ensures r.None? <==> indexFile.None?
    ensures r.Some? ==> r.value == (output + ["index.gmi"], IndexText(cfg, indexFile.value, posts, year))
  {
    if indexFile.None? {
      return None;
    }
    var content := "# " + cfg.title + "\n\n" + indexFile.value.content;
    var listing := AppendBlock("### Gemlog posts\n", IndexPosts(cfg, posts), IndexPostLine);
    listing := listing + "=> gemlog/ All posts";
    assert listing == PostsListing(cfg, posts);
    content := Text.ReplaceAll(content, "{% posts %}", listing);
    assert content == IndexBody(cfg, indexFile.value, posts);
    var footer := "";
    if cfg.license.Some? {
      footer := "\n\n" + LicenseSentence(cfg.license.value);
    }
    footer := footer + CopyrightText(cfg, year);
    footer := footer + MailText(cfg);
    assert footer == IndexFooter(cfg, year);
    return Some((output + ["index.gmi"], content + footer));
  }

  /** The home index lists `min(entries, |posts|)` posts, newest first, in
      strictly descending timestamp order. */
  lemma IndexListsNewest(cfg: C.Config, posts: Posts)
    requires Sorted(posts)
    ensures var shown := IndexPosts(cfg, posts);
      && |shown| == (if cfg.entries < |posts| then cfg.entries else |posts|)
      && forall i, j :: 0 <= i < j < |shown| ==> KeysNewestFirst(posts)[i] > KeysNewestFirst(posts)[j]
  {
  }

  /** A home page without the placeholder gets no post listing. */
  lemma IndexWithoutPlaceholder(cfg: C.Config, page: Content.Page, posts: Posts, year: int)
    requires AllPublished(posts)
    requires !Text.Contains("# " + cfg.title + "\n\n" + page.content, "{% posts %}")
    ensures IndexText(cfg, page, posts, year) == "# " + cfg.title + "\n\n" + page.content + IndexFooter(cfg, year)
  {
    Text.ReplaceAllAbsent("# " + cfg.title + "\n\n" + page.content, "{% posts %}", PostsListing(cfg, posts));
  }

  /** Without a licence the copyright line directly follows the page body. */
  lemma IndexCopyrightGlued(cfg: C.Config, page: Content.Page, posts: Posts, year: int)
    requires AllPublished(posts) && cfg.license.None?
    ensures IndexText(cfg, page, posts, year) == IndexBody(cfg, page, posts) + CopyrightText(cfg, year) + MailText(cfg)
  {
    FooterGlued(IndexBody(cfg, page, posts), cfg, year);
  }

  lemma FooterGlued(body: string, cfg: C.Config, year: int)
    requires cfg.license.None?
    ensures body + IndexFooter(cfg, year) == body + CopyrightText(cfg, year) + MailText(cfg)
  {
    var c, m := CopyrightText(cfg, year), MailText(cfg);
    assert IndexFooter(cfg, year) == c + m by {
      assert IndexFooter(cfg, year) == "" + c + m;
    }
  }

  // ---- The gemlog index ----

  function GemlogPostLine(m: Content.Meta): string
    requires m.published.Some?
  {
    "=> " + Content.Slug(m.title) + " " + DateString(m.published.value) + " - " + m.title + "\n"
  }

  function GemlogIndexText(cfg: C.Config, page: Content.Page, posts: Posts, year: int): string
    requires AllPublished(posts)
  {
    "# " + cfg.title + "\n\n" + page.content + "\n\n### Gemlog posts\n"
      + Block(NewestFirst(posts), GemlogPostLine) + "\n=> ../tags tags\n=> .. Home\n" + BuildFooter(cfg, year)
  }

  /** `render_gemlog_index`: every post, newest first; nothing is written when
      `content/gemlog/index.gmi` does not parse. */
  method RenderGemlogIndex(cfg: C.Config, output: Path, indexFile: Option<Content.Page>, posts: Posts, year: int)
    returns (r: Option<(Path, string)>)
    requires AllPublished(posts)
    ensures r.None? <==> indexFile.None?
    ensures r.Some? ==> r.value == (output + ["gemlog", "index.gmi"], GemlogIndexText(cfg, indexFile.value, posts, year))
  {
    if indexFile.None? {
      return None;
    }
    var head := "# " + cfg.title + "\n\n" + indexFile.value.content + "\n\n### Gemlog posts\n";
    var content := AppendBlock(head, NewestFirst(posts), GemlogPostLine);
    content := content + "\n=> ../tags tags\n=> .. Home\n";
    content := content + BuildFooter(cfg, year);
    return Some((output + ["gemlog", "index.gmi"], content));
  }

  // ---- The Gemini feed ----

  /** The address a feed line gives a post: the configured path (or `/`)
      followed by the post's source path `content/gemlog/<slug>`. */
  function FeedUrl(cfg: C.Config, m: Content.Meta): string {
    var base := match cfg.path case Some(p) => p case None => "/";
    var rpath := Paths.ToString(Content.GetPath(m.title, Content.GemlogPost));
    Urls.ToString(Urls.SetPath(Urls.Url(cfg.domain, ""), PushStr(base, rpath)))
  }

  function FeedLine(cfg: C.Config, m: Content.Meta): string
    requires m.published.Some?
  {
    "=> " + FeedUrl(cfg, m) + " " + DateString(m.published.value) + " - " + m.title + "\n"
  }

  function FeedLines(cfg: C.Config, metas: seq<Content.Meta>): string
    requires forall i :: 0 <= i < |metas| ==> metas[i].published.Some?
  {
    if |metas| == 0 then "" else FeedLines(cfg, metas[..|metas| - 1]) + FeedLine(cfg, metas[|metas| - 1])
  }

  lemma FeedStep(head: string, cfg: C.Config, metas: seq<Content.Meta>, i: nat)
    requires i < |metas| && forall k :: 0 <= k < |metas| ==> metas[k].published.Some?
    ensures head + FeedLines(cfg, metas[..i]) + FeedLine(cfg, metas[i]) == head + FeedLines(cfg, metas[..i + 1])
  {
    var ms := metas[..i + 1];
    assert ms[..i] == metas[..i] && ms[i] == metas[i];
  }

  /** The loop body of `gemfeed`: the line for the next post. */
  method AppendFeedLine(head: string, page: string, cfg: C.Config, metas: seq<Content.Meta>, i: nat)
    returns (r: string)
    requires i < |metas| && forall k :: 0 <= k < |metas| ==> metas[k].published.Some?
    requires page == head + FeedLines(cfg, metas[..i])
    ensures r == head + FeedLines(cfg, metas[..i + 1])
  {
    FeedStep(head, cfg, metas, i);
    r := page + FeedLine(cfg, metas[i]);
  }

  function GemfeedText(cfg: C.Config, posts: Posts): string
    requires AllPublished(posts)
  {
    "# " + cfg.title + "\n\n" + FeedLines(cfg, NewestFirst(posts))
  }

  /** `Capsule::gemfeed`: a line per post, newest first. The domain is parsed
      once per post, so it can fail only when there is a post. */
  method Gemfeed(cfg: C.Config, posts: Posts) returns (r: Result<string, Urls.UrlError>)
    requires AllPublished(posts)
    ensures r.Err? <==> |posts| > 0 && !Urls.ValidDomain(cfg.domain)
    ensures r.Ok? ==> r.value == GemfeedText(cfg, posts)
  {
    var head := "# " + cfg.title + "\n\n";
    var page := head;
    var all := NewestFirst(posts);
    assert forall k :: 0 <= k < |all| ==> all[k].published.Some?;
    var i := 0;
    while i < |all|
      invariant 0 <= i <= |all|
      invariant forall k :: 0 <= k < |all| ==> all[k].published.Some?
      invariant i > 0 ==> Urls.ValidDomain(cfg.domain)
      invariant page == head + FeedLines(cfg, all[..i])
    {
      var url := Urls.ParseGemini(cfg.domain);
      if url.Err? {
        return Err(url.error);
      }
      page := AppendFeedLine(head, page, cfg, all, i);
      i := i + 1;
    }
    assert all[..i] == all;
    return Ok(page);
  }

  /** Without a configured path a feed line points at the post's source
      path, `gemini://<domain>/content/gemlog/<slug>`. */
  lemma FeedUrlOfPost(cfg: C.Config, m: Content.Meta)
    requires cfg.path.None?
    ensures FeedUrl(cfg, m) == "gemini://" + cfg.domain + "/" + ("content/gemlog/" + Content.Slug(m.title))
  {
    var slug := Content.Slug(m.title);
    PostSourcePath(slug);
    var rpath := "content/gemlog/" + slug;
    assert PushStr("/", rpath) == "/" + rpath;
    assert Urls.NormalizePath("/" + rpath) == "/" + rpath;
  }

  lemma PostSourcePath(slug: string)
    ensures Paths.ToString(["content", "gemlog", slug]) == "content/gemlog/" + slug
  {
    var p: Path := ["content", "gemlog", slug];
    assert p[..2][..1] == ["content"];
    assert Paths.Join(p[..2]) == "content/gemlog";
    assert p[..2] == p[..|p| - 1];
  }

  // ---- The Atom feed ----

  /** The parts of the Atom feed the build decides: its title, identity and
      base address, author, rights line and entries (each entry's XML is
      produced by a foreign builder). */
  datatype AtomFeed = AtomFeed(
    title: string,
    id: string,
    author: C.AtomPerson,
    rights: string,
    base: string,
    entries: seq<Content.Meta>)

  /** The feed's address: `gemini://<domain>` with the configured path set. */
  function FeedBase(cfg: C.Config): string {
    var url := Urls.Url(cfg.domain, "");
    Urls.ToString(match cfg.path case Some(p) => Urls.SetPath(url, p) case None => url)
  }

  /** `Capsule::atom`: entries newest first; the rights year is that of the
      post with the largest key, so an empty capsule has no feed (the source
      panics there); an invalid domain is an error. */
  function AtomSpec(cfg: C.Config, posts: Posts): (r: Result<AtomFeed, BuildError>)
    requires AllPublished(posts)
    ensures |posts| == 0 ==> r == Err(EmptyFeed)
    ensures r.Err? <==> |posts| == 0 || !Urls.ValidDomain(cfg.domain)
    ensures r.Ok? ==>
      && r.value.entries == NewestFirst(posts)
      && r.value.rights == "© " + Text.IntToString(Year(posts[|posts| - 1].1.published.value)) + " by " + cfg.author.name
      && r.value.id == FeedBase(cfg) && r.value.base == FeedBase(cfg)
  {
    if |posts| == 0 then Err(EmptyFeed)
    else
      var year := Year(posts[|posts| - 1].1.published.value);
      match Urls.ParseGemini(cfg.domain)
      case Err(e) => Err(BadUrl(e))
      case Ok(url) =>
        var u := match cfg.path case Some(p) => Urls.SetPath(url, p) case None => url;
        Ok(AtomFeed(cfg.title, Urls.ToString(u), C.ToAtom(cfg.author),
                    "© " + Text.IntToString(year) + " by " + cfg.author.name, Urls.ToString(u),
                    NewestFirst(posts)))
  }

  /** The entries loop of `Capsule::atom`, then the feed. */
  method Atom(cfg: C.Config, posts: Posts) returns (r: Result<AtomFeed, BuildError>)
    requires AllPublished(posts)
    ensures r == AtomSpec(cfg, posts)
  {
    var entries: seq<Content.Meta> := [];
    var i := |posts|;
    while i > 0
      invariant 0 <= i <= |posts|
      invariant |entries| == |posts| - i
      invariant forall k :: 0 <= k < |entries| ==> entries[k] == posts[|posts| - 1 - k].1
    {
      i := i - 1;
      entries := entries + [posts[i].1];
    }
    assert entries == NewestFirst(posts);
    if |posts| == 0 {
      return Err(EmptyFeed);
    }
    var year := Year(posts[|posts| - 1].1.published.value);
    var url := Urls.ParseGemini(cfg.domain);
    if url.Err? {
      return Err(BadUrl(url.error));
    }
    var u := url.value;
    if cfg.path.Some? {
      u := Urls.SetPath(u, cfg.path.value);
    }
    return Ok(AtomFeed(cfg.title, Urls.ToString(u), C.ToAtom(cfg.author),
                       "© " + Text.IntToString(year) + " by " + cfg.author.name, Urls.ToString(u), entries));
  }

  /** In a walk result the post with the largest key is the last one, so the
      rights year is that of the newest post. */
  lemma AtomYearFromLargestKey(posts: Posts)
    requires Sorted(posts) && |posts| > 0
    ensures forall i :: 0 <= i < |posts| ==> posts[i].0 <= posts[|posts| - 1].0
    ensures NewestFirst(posts)[0] == posts[|posts| - 1].1
  {
  }
}
