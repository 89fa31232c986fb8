/** The first half of `zond build` (src/command/build.rs): walking the content
    tree and sorting what it finds into posts, pages and tag lists, rendering
    each published document and copying every other file. */
module BuildItems {
  import opened Wrappers
  import opened Paths
  import opened Times
  import Urls
  import C = Config
  import Content
  import opened Links
  import LinkResolver

  // ---- Links ----

  /** `Link::to_gmi`: the link line with its line break. */
  function ToGmi(l: Link): (r: string)
    ensures r == Links.Display(l) + "\n"
  {
    "=> " + l.url + " " + l.display + "\n"
  }

  /** `Link::get` in build.rs as written: the URL path is the document's
      whole (canonical, absolute) file-system path. */
  function GetAsWritten(origin: Path, cfg: C.Config, meta: Content.Meta): (r: Result<Link, Urls.UrlError>)
    requires meta.published.Some?
    ensures r.Err? <==> !Urls.ValidDomain(cfg.domain)
    ensures r.Ok? ==> r.value.url == "gemini://" + cfg.domain + Urls.NormalizePath(Paths.ToString(origin))
  {
    match C.Url(cfg)
    case Err(e) => Err(e)
    case Ok(url) => Ok(Link(Urls.ToString(Urls.SetPath(url, Paths.ToString(origin))),
                            LinkResolver.DisplayText(meta)))
  }

  /** The as-written link leaks the build machine's directory: for a capsule
      in `/srv` the post `gemlog/a.gmi` links to
      `gemini://example.org/srv/content/gemlog/a.gmi`, where the
      content-relative resolver gives `gemini://example.org/gemlog/a.gmi`. */
  lemma GetAsWrittenLeaksFileSystemPath(cfg: C.Config, meta: Content.Meta)
    requires meta.published.Some? && cfg.domain == "example.org"
    ensures var origin: Path := ["", "srv", "content", "gemlog", "a.gmi"];
      && GetAsWritten(origin, cfg, meta).value.url == "gemini://" + cfg.domain + "/srv/content/gemlog/a.gmi"
      && LinkResolver.Get(origin, ["", "srv"], cfg, meta).value.url == "gemini://" + cfg.domain + "/gemlog/a.gmi"
  {
    AsWrittenExample(cfg, meta);
    ResolverExample(cfg, meta);
  }

  lemma AsWrittenExample(cfg: C.Config, meta: Content.Meta)
    requires meta.published.Some? && cfg.domain == "example.org"
    ensures GetAsWritten(["", "srv", "content", "gemlog", "a.gmi"], cfg, meta).value.url
      == "gemini://" + cfg.domain + "/srv/content/gemlog/a.gmi"
  {
    ExampleDomainValid();
    ExamplePaths();
    var p := "/srv/content/gemlog/a.gmi";
    assert Urls.NormalizePath(p) == p;
  }

  lemma ResolverExample(cfg: C.Config, meta: Content.Meta)
    requires meta.published.Some? && cfg.domain == "example.org"
    ensures LinkResolver.Get(["", "srv", "content", "gemlog", "a.gmi"], ["", "srv"], cfg, meta).value.url
      == "gemini://" + cfg.domain + "/gemlog/a.gmi"
  {
    var origin: Path := ["", "srv", "content", "gemlog", "a.gmi"];
    ExampleDomainValid();
    ExamplePaths();
    assert Push(["", "srv"], ["content"]) == ["", "srv", "content"];
    assert origin[..3] == ["", "srv", "content"];
    assert origin[3..] == ["gemlog", "a.gmi"];
    assert Urls.NormalizePath("gemlog/a.gmi") == "/gemlog/a.gmi";
  }

  lemma ExampleDomainValid()
    ensures Urls.ValidDomain("example.org")
  {
    var d := "example.org";
    assert forall i :: 0 <= i < |d| ==> !Urls.IsDelimiter(d[i]);
  }

  lemma ExamplePaths()
    ensures Paths.ToString(["", "srv", "content", "gemlog", "a.gmi"]) == "/srv/content/gemlog/a.gmi"
    ensures Paths.ToString(["gemlog", "a.gmi"]) == "gemlog/a.gmi"
  {
    var origin: Path := ["", "srv", "content", "gemlog", "a.gmi"];
    assert origin[..1] == [""];
    assert Paths.Join(origin[..1]) == "";
    assert origin[..2][..1] == origin[..1];
    assert Paths.Join(origin[..2]) == "/srv";
    assert origin[..3][..2] == origin[..2];
    assert Paths.Join(origin[..3]) == "/srv/content";
    assert origin[..4][..3] == origin[..3];
    assert Paths.Join(origin[..4]) == "/srv/content/gemlog";
    assert origin[..4] == origin[..|origin| - 1];
    assert Paths.Join(origin) == "/srv/content/gemlog/a.gmi";
    assert ["gemlog", "a.gmi"][..1] == ["gemlog"];
  }

  // ---- Posts: a map ordered by timestamp ----

  /** `BTreeMap<i64, Meta>` as its entries in ascending key order. */
  type Posts = seq<(int, Content.Meta)>

  ghost predicate Sorted(ps: Posts) {
    forall i, j :: 0 <= i < j < |ps| ==> ps[i].0 < ps[j].0
  }

  function Keys(ps: Posts): set<int> {
    set i | 0 <= i < |ps| :: ps[i].0
  }

  function Lookup(ps: Posts, k: int): Option<Content.Meta> {
    if |ps| == 0 then None else if ps[0].0 == k then Some(ps[0].1) else Lookup(ps[1..], k)
  }

  /** `BTreeMap::insert`: an equal key has its value replaced. */
  function Insert(ps: Posts, k: int, v: Content.Meta): Posts {
    if |ps| == 0 then [(k, v)]
    else if ps[0].0 == k then [(k, v)] + ps[1..]
    else if k < ps[0].0 then [(k, v)] + ps
    else [ps[0]] + Insert(ps[1..], k, v)
  }

  lemma KeysCons(p: (int, Content.Meta), ps: Posts)
    ensures Keys([p] + ps) == {p.0} + Keys(ps)
  {
    var r := [p] + ps;
    forall x ensures x in Keys(r) <==> x in {p.0} + Keys(ps) {
      if x in Keys(r) {
        var i :| 0 <= i < |r| && r[i].0 == x;
        if i > 0 { assert ps[i - 1].0 == x; }
      }
      if x in Keys(ps) {
        var i :| 0 <= i < |ps| && ps[i].0 == x;
        assert r[i + 1].0 == x;
        assert x in Keys(r);
      }
      if x == p.0 {
        assert r[0].0 == x;
        assert x in Keys(r);
      }
    }
  }

  /** Insertion adds `k` to the keys and no other key. */
  lemma {:induction false} InsertKeys(ps: Posts, k: int, v: Content.Meta)
    ensures Keys(Insert(ps, k, v)) == Keys(ps) + {k}
    decreases |ps|
  {
    if |ps| == 0 {
      KeysCons((k, v), []);
      assert [(k, v)] + [] == [(k, v)];
      assert Keys(ps) == {};
    } else {
      KeysCons(ps[0], ps[1..]);
      assert ps == [ps[0]] + ps[1..];
      if ps[0].0 == k {
        KeysCons((k, v), ps[1..]);
      } else if k < ps[0].0 {
        KeysCons((k, v), ps);
      } else {
        InsertKeys(ps[1..], k, v);
        KeysCons(ps[0], Insert(ps[1..], k, v));
      }
    }
  }

  /** Insertion keeps the keys ascending. */
  lemma {:induction false} InsertSorted(ps: Posts, k: int, v: Content.Meta)
    requires Sorted(ps)
    ensures Sorted(Insert(ps, k, v))
    decreases |ps|
  {
    if |ps| > 0 && ps[0].0 != k && !(k < ps[0].0) {
      var tail := ps[1..];
      InsertSorted(tail, k, v);
      InsertKeys(tail, k, v);
      forall j | 0 <= j < |tail| ensures ps[0].0 < tail[j].0 {
        assert tail[j] == ps[j + 1];
      }
      KeysAbove(tail, ps[0].0);
      var rt := Insert(tail, k, v);
      AboveKeys(rt, ps[0].0);
      ConsSorted(ps[0], rt);
      assert Insert(ps, k, v) == [ps[0]] + rt;
    }
  }

  lemma KeysAbove(ps: Posts, b: int)
    requires forall j :: 0 <= j < |ps| ==> b < ps[j].0
    ensures forall key :: key in Keys(ps) ==> b < key
  {
  }

  lemma AboveKeys(ps: Posts, b: int)
    requires forall key :: key in Keys(ps) ==> b < key
    ensures forall j :: 0 <= j < |ps| ==> b < ps[j].0
  {
    forall j | 0 <= j < |ps| ensures b < ps[j].0 {
      assert ps[j].0 in Keys(ps);
    }
  }

  /** A key below every key of a sorted list can go in front of it. */
  lemma ConsSorted(p: (int, Content.Meta), ps: Posts)
    requires Sorted(ps) && forall j :: 0 <= j < |ps| ==> p.0 < ps[j].0
    ensures Sorted([p] + ps)
  {
    var r := [p] + ps;
    forall i, j | 0 <= i < j < |r| ensures r[i].0 < r[j].0 {
      assert r[j] == ps[j - 1];
      if i > 0 {
        assert r[i] == ps[i - 1];
      }
    }
  }

  /** After insertion `k` maps to the new value (the last write wins) and
      every other key to what it did before. */
  lemma {:induction false} InsertLookup(ps: Posts, k: int, v: Content.Meta, j: int)
    requires Sorted(ps)
    ensures Lookup(Insert(ps, k, v), j) == if j == k then Some(v) else Lookup(ps, j)
    decreases |ps|
  {
    if |ps| > 0 {
      if ps[0].0 == k {
        assert ([(k, v)] + ps[1..])[1..] == ps[1..];
        if j == k { } else { }
        LookupTail(ps, k);
      } else if k < ps[0].0 {
        assert ([(k, v)] + ps)[1..] == ps;
      } else {
        assert Sorted(ps[1..]);
        InsertLookup(ps[1..], k, v, j);
        assert ([ps[0]] + Insert(ps[1..], k, v))[1..] == Insert(ps[1..], k, v);
      }
    }
  }

  /** Insertion keeps the keys ascending, adds `k` to the keys, maps `k` to
      the new value (the last write wins) and leaves every other key alone. */
  lemma InsertSpec(ps: Posts, k: int, v: Content.Meta)
    requires Sorted(ps)
    ensures Sorted(Insert(ps, k, v))
    ensures Keys(Insert(ps, k, v)) == Keys(ps) + {k}
    ensures forall j :: Lookup(Insert(ps, k, v), j) == if j == k then Some(v) else Lookup(ps, j)
  {
    InsertSorted(ps, k, v);
    InsertKeys(ps, k, v);
    forall j ensures Lookup(Insert(ps, k, v), j) == if j == k then Some(v) else Lookup(ps, j) {
      InsertLookup(ps, k, v, j);
    }
  }

  /** In an ascending map the head's key is not looked up in the tail. */
  lemma {:induction false} LookupTail(ps: Posts, k: int)
    requires Sorted(ps) && |ps| > 0 && ps[0].0 == k
    ensures Lookup(ps[1..], k) == None
  {
    LookupAbsent(ps[1..], k);
  }

  lemma {:induction false} LookupAbsent(ps: Posts, k: int)
    requires Sorted(ps) && forall i :: 0 <= i < |ps| ==> ps[i].0 != k
    ensures Lookup(ps, k) == None
    decreases |ps|
  {
    if |ps| > 0 {
      assert Sorted(ps[1..]);
      LookupAbsent(ps[1..], k);
    }
  }

  /** `values().rev()`: the posts, newest first. */
  function NewestFirst(ps: Posts): (r: seq<Content.Meta>)
    ensures |r| == |ps| && forall i :: 0 <= i < |ps| ==> r[i] == ps[|ps| - 1 - i].1
  {
    seq(|ps|, i requires 0 <= i < |ps| => ps[|ps| - 1 - i].1)
  }

  /** The keys in the order `values().rev()` visits them. */
  function KeysNewestFirst(ps: Posts): (r: seq<int>)
    ensures |r| == |ps| && forall i :: 0 <= i < |ps| ==> r[i] == ps[|ps| - 1 - i].0
  {
    seq(|ps|, i requires 0 <= i < |ps| => ps[|ps| - 1 - i].0)
  }

  /** Newest first is strictly descending by timestamp. */
  lemma NewestFirstDescending(ps: Posts)
    requires Sorted(ps)
    ensures forall i, j :: 0 <= i < j < |ps| ==> KeysNewestFirst(ps)[i] > KeysNewestFirst(ps)[j]
  {
  }

  ghost predicate AllPublished(ps: Posts) {
    forall i :: 0 <= i < |ps| ==> ps[i].1.published.Some?
  }

  // ---- Tags: a map from tag to links, with the order tags first appear ----

  type Tags = map<string, seq<Link>>

  function LinksOf(tags: Tags, t: string): seq<Link> {
    if t in tags then tags[t] else []
  }

  /** `order` lists every tag of `tags` exactly once. */
  ghost predicate Enumerates(order: seq<string>, tags: Tags) {
    && (forall i, j :: 0 <= i < j < |order| ==> order[i] != order[j])
    && (forall t :: t in tags <==> t in order)
  }

  /** One tag of a document: its link is appended to the tag's list, or starts
      a new list (and the tag joins the order). */
  function AddLink(tags: Tags, order: seq<string>, t: string, link: Link): (Tags, seq<string>) {
    if t in tags then (tags[t := tags[t] + [link]], order)
    else (tags[t := [link]], order + [t])
  }

  function AddLinks(tags: Tags, order: seq<string>, ts: seq<string>, link: Link): (Tags, seq<string>)
    decreases |ts|
  {
    if |ts| == 0 then (tags, order)
    else
      var (t1, o1) := AddLink(tags, order, ts[0], link);
      AddLinks(t1, o1, ts[1..], link)
  }

  function Count(ts: seq<string>, t: string): nat {
    if |ts| == 0 then 0 else (if ts[0] == t then 1 else 0) + Count(ts[1..], t)
  }

  function Repeat(link: Link, n: nat): (r: seq<Link>)
    ensures |r| == n && forall i :: 0 <= i < n ==> r[i] == link
  {
    if n == 0 then [] else [link] + Repeat(link, n - 1)
  }

  lemma {:induction false} RepeatAdd(link: Link, a: nat, b: nat)
    ensures Repeat(link, a + b) == Repeat(link, a) + Repeat(link, b)
  {
  }

  /** One tag keeps the order an enumeration of the tags, extending it. */
  lemma AddLinkOrder(tags: Tags, order: seq<string>, t0: string, link: Link)
    requires Enumerates(order, tags)
    ensures var (t1, o1) := AddLink(tags, order, t0, link);
      Enumerates(o1, t1) && order <= o1
  {
  }

  /** One tag: its list gains the link at the end, or starts with it; every
      other list is unchanged. */
  lemma AddLinkOf(tags: Tags, order: seq<string>, t0: string, link: Link, t: string)
    ensures LinksOf(AddLink(tags, order, t0, link).0, t) == LinksOf(tags, t) + Repeat(link, if t0 == t then 1 else 0)
  {
    if t0 == t {
      assert Repeat(link, 1) == [link];
    } else {
      assert Repeat(link, 0) == [];
      assert LinksOf(tags, t) + [] == LinksOf(tags, t);
    }
  }

  lemma {:induction false} AddLinksOrder(tags: Tags, order: seq<string>, ts: seq<string>, link: Link)
    requires Enumerates(order, tags)
    ensures var (t2, o2) := AddLinks(tags, order, ts, link);
      Enumerates(o2, t2) && order <= o2
    decreases |ts|
  {
    if |ts| > 0 {
      var (t1, o1) := AddLink(tags, order, ts[0], link);
      AddLinkOrder(tags, order, ts[0], link);
      AddLinksOrder(t1, o1, ts[1..], link);
    }
  }

  lemma {:induction false} AddLinksOf(tags: Tags, order: seq<string>, ts: seq<string>, link: Link, t: string)
    ensures LinksOf(AddLinks(tags, order, ts, link).0, t) == LinksOf(tags, t) + Repeat(link, Count(ts, t))
    decreases |ts|
  {
    if |ts| > 0 {
      var (t1, o1) := AddLink(tags, order, ts[0], link);
      AddLinkOf(tags, order, ts[0], link, t);
      AddLinksOf(t1, o1, ts[1..], link, t);
      var c := if ts[0] == t then 1 else 0;
      assert Count(ts, t) == c + Count(ts[1..], t);
      RepeatAdd(link, c, Count(ts[1..], t));
    } else {
      assert LinksOf(tags, t) + [] == LinksOf(tags, t);
    }
  }

  /** Every tag's list gains the link once per time the document names the
      tag, at its end; other tags' lists are unchanged; the order stays an
      enumeration of the tags. */
  lemma AddLinksSpec(tags: Tags, order: seq<string>, ts: seq<string>, link: Link)
    requires Enumerates(order, tags)
    ensures var (t2, o2) := AddLinks(tags, order, ts, link);
      && Enumerates(o2, t2)
      && order <= o2
      && (forall t :: LinksOf(t2, t) == LinksOf(tags, t) + Repeat(link, Count(ts, t)))
  {
    AddLinksOrder(tags, order, ts, link);
    forall t ensures LinksOf(AddLinks(tags, order, ts, link).0, t) == LinksOf(tags, t) + Repeat(link, Count(ts, t)) {
      AddLinksOf(tags, order, ts, link, t);
    }
  }

  /** The tag order only gains tags the document carries. */
  lemma {:induction false} AddLinksFrom(tags: Tags, order: seq<string>, ts: seq<string>, link: Link)
    ensures forall t :: t in AddLinks(tags, order, ts, link).1 ==> t in order || t in ts
    decreases |ts|
  {
    if |ts| > 0 {
      var (t1, o1) := AddLink(tags, order, ts[0], link);
      AddLinksFrom(t1, o1, ts[1..], link);
      forall t | t in ts[1..] ensures t in ts {
        var k :| 0 <= k < |ts[1..]| && ts[1..][k] == t;
        assert ts[k + 1] == t;
      }
    }
  }

  /** The first document's tags start the tag order exactly when it has
      some. */
  lemma FirstTagsOrder(ts: seq<string>, link: Link)
    ensures |AddLinks(map[], [], ts, link).1| == 0 <==> |ts| == 0
  {
    var (tags, order) := AddLinks(map[], [], ts, link);
    AddLinksSpec(map[], [], ts, link);
    if |ts| > 0 {
      var t := ts[0];
      assert Count(ts, t) > 0;
      assert |LinksOf(tags, t)| > 0;
      assert t in order;
    }
  }

  /** A document naming a tag once adds its link at the end of that tag's
      list, or starts the list; a tag it does not name is untouched. */
  lemma AddLinksOnce(tags: Tags, order: seq<string>, ts: seq<string>, link: Link, t: string)
    requires Enumerates(order, tags)
    ensures Count(ts, t) == 0 ==> LinksOf(AddLinks(tags, order, ts, link).0, t) == LinksOf(tags, t)
    ensures Count(ts, t) == 1 ==> LinksOf(AddLinks(tags, order, ts, link).0, t) == LinksOf(tags, t) + [link]
  {
    AddLinksSpec(tags, order, ts, link);
  }

  // ---- The two revisions of the walk ----

  /** Which definitions the build uses. `AsWritten` is build.rs as it stands:
      its own `Link::get`, timestamps read back from the unpadded time text,
      and tag pages named with `set_extension`. `Corrected` puts in their
      place the content-relative link of src/link.rs, the zero-padded time
      text, and tag pages at `<tag>.gmi`. */
  datatype Revision = AsWritten | Corrected

  /** The link of a published document at `rel` below `<cwd>/content`. */
  function LinkFor(rev: Revision, cfg: C.Config, cwd: Path, rel: Path, meta: Content.Meta): (r: Result<Link, BuildError>)
    requires meta.published.Some?
    ensures r.Err? <==> !Urls.ValidDomain(cfg.domain)
    ensures r.Ok? ==> r.value.display == LinkResolver.DisplayText(meta)
    ensures r.Ok? && rev == AsWritten ==>
      r.value.url == "gemini://" + cfg.domain + Urls.NormalizePath(Paths.ToString(Push(cwd, ["content"]) + rel))
    ensures r.Ok? && rev == Corrected ==>
      r.value.url == "gemini://" + cfg.domain + Urls.NormalizePath(Paths.ToString(rel))
  {
    var origin := Push(cwd, ["content"]) + rel;
    match rev
    case AsWritten =>
      (match GetAsWritten(origin, cfg, meta)
       case Err(e) => Err(BadUrl(e))
       case Ok(l) => Ok(l))
    case Corrected =>
      assert origin == cwd + ["content"] + rel;
      LinkResolver.GetOfContentPath(cwd, rel, cfg, meta);
      match LinkResolver.Get(origin, cwd, cfg, meta)
      case Err(e) => Err(BadLink(e))
      case Ok(l) => Ok(l)
  }

  /** The key a post is stored under. */
  function StampFor(rev: Revision, t: Time): (r: Result<int, ParseError>)
    ensures rev == AsWritten ==> r == Timestamp(t)
    ensures rev == Corrected ==> r == PaddedTimestamp(t)
  {
    match rev
    case AsWritten => Timestamp(t)
    case Corrected => PaddedTimestamp(t)
  }

  // ---- Walk entries and their classification ----

  /** One entry of the walk below `content`: its path relative to `content`,
      whether it is a regular file, and what `Page::from_path` gives for it
      (`None` when it cannot be read or its header does not decode). */
  datatype Entry = Entry(rel: Path, isFile: bool, page: Option<Content.Page>)

  /** The two index pages, rendered separately. */
  predicate Reserved(rel: Path) {
    rel == ["index.gmi"] || rel == ["gemlog", "index.gmi"]
  }

  predicate IsGmi(rel: Path) {
    match FileName(rel)
    case Some(n) => Extension(n) == Some("gmi")
    case None => false
  }

  datatype Action = Skip | Process(page: Content.Page) | Drop | Copy

  /** What the walk does with an entry: reserved index files are skipped; a
      `.gmi` entry is processed when it parses and is published and dropped
      otherwise; any other regular file is copied and a directory dropped. */
  function Classify(e: Entry): (a: Action)
    ensures a.Process? ==>
      !Reserved(e.rel) && IsGmi(e.rel) && e.page == Some(a.page) && a.page.meta.published.Some?
    ensures a == Copy <==> !Reserved(e.rel) && !IsGmi(e.rel) && e.isFile
    ensures Reserved(e.rel) ==> a == Skip
    ensures !Reserved(e.rel) && IsGmi(e.rel) && e.page.Some? && e.page.value.meta.published.Some?
      ==> a == Process(e.page.value)
  {
    if Reserved(e.rel) then Skip
    else if IsGmi(e.rel) then
      match e.page
      case Some(p) => if p.meta.published.Some? then Process(p) else Drop
      case None => Drop
    else if e.isFile then Copy
    else Drop
  }

  /** Everything the walk produces: the three maps, the order in which tags
      were first seen, the rendered pages, the copied files and the
      directories that exist below the output directory (relative to it, `[]`
      being the output directory itself). `run` removes the output directory
      before the walk, so the walk starts with none. */
  datatype Items = Items(
    posts: Posts,
    pages: map<Path, Content.Meta>,
    tags: Tags,
    tagOrder: seq<string>,
    rendered: seq<(Path, string)>,
    copied: seq<Path>,
    dirs: set<Path>)

  const NoItems := Items([], map[], map[], [], [], [], {})

  datatype BuildError =
    | BadLink(e: LinkResolver.LinkError)
    | BadTime(t: ParseError)
    | BadUrl(u: Urls.UrlError)
    | EmptyFeed
    | MissingDir(dir: Path)
    | IsDirectory(path: Path)

  /** The directory, relative to the output directory, of the output file at
      `rel`. */
  function DirOf(rel: Path): Path {
    if |rel| == 0 then [] else rel[..|rel| - 1]
  }

  /** Writing a file into the output directory `d` (`fs::write`, `fs::copy`):
      as written it fails when `d` does not exist; corrected, `d` is created
      first. The result is the directories afterwards. */
  function WriteInto(rev: Revision, output: Path, dirs: set<Path>, d: Path): (r: Result<set<Path>, BuildError>)
    ensures r.Err? <==> rev == AsWritten && d !in dirs
    ensures r.Err? ==> r.error == MissingDir(output + d)
    ensures r.Ok? ==> d in r.value && dirs <= r.value
    ensures r.Ok? && rev == AsWritten ==> r.value == dirs
    ensures rev == Corrected ==> r == Ok(dirs + Ancestors(d))
  {
    match rev
    case AsWritten => if d in dirs then Ok(dirs) else Err(MissingDir(output + d))
    case Corrected => Ok(dirs + Ancestors(d))
  }

  /** A path whose last component is `..` names a directory. */
  predicate NamesDirectory(p: Path) {
    |p| > 0 && p[|p| - 1] == ".."
  }

  /** `fs::write` of the file at `rel` (relative to the output directory),
      once its directory exists: it fails when the path names a directory,
      either by ending in `..` or because a directory is already there, and
      otherwise creates no directory. */
  function WriteFile(output: Path, dirs: set<Path>, rel: Path): (r: Result<set<Path>, BuildError>)
    ensures r.Err? <==> NamesDirectory(rel) || rel in dirs
    ensures r.Err? ==> r.error == IsDirectory(output + rel)
    ensures r.Ok? ==> r.value == dirs
  {
    if NamesDirectory(rel) || rel in dirs then Err(IsDirectory(output + rel)) else Ok(dirs)
  }

  /** A directory below the output directory exists only when the output
      directory does. */
  predicate Rooted(dirs: set<Path>) {
    dirs == {} || [] in dirs
  }

  /** A document goes into the posts when its relative path starts with
      `gemlog`. */
  predicate InGemlog(rel: Path) {
    |rel| > 0 && rel[0] == "gemlog"
  }

  /** The processing of one published document: its link joins each of its
      tags, it is rendered at the same relative path below `output`, and it
      is stored as a post (by timestamp) or a page (by relative path). */
  function ProcessStep(rev: Revision, cfg: C.Config, cwd: Path, output: Path, s: Items, rel: Path, page: Content.Page)
    : Result<Items, BuildError>
    requires page.meta.published.Some?
  {
    match LinkFor(rev, cfg, cwd, rel, page.meta)
    case Err(e) => Err(e)
    case Ok(link) =>
      var (tags, order) := AddLinks(s.tags, s.tagOrder, page.meta.tags, link);
      var out := output + rel;
      var text := Content.Rendered(cfg, page, out, |rel|, None, Content.RootText(cfg));
      var s1 := s.(tags := tags, tagOrder := order, dirs := s.dirs + Ancestors(DirOf(rel)),
                   rendered := s.rendered + [(out, text)]);
      if InGemlog(rel) then
        match StampFor(rev, page.meta.published.value)
        case Err(e) => Err(BadTime(e))
        case Ok(ts) => Ok(s1.(posts := Insert(s.posts, ts, page.meta)))
      else Ok(s1.(pages := s.pages[rel := page.meta]))
  }

  function Step(rev: Revision, cfg: C.Config, cwd: Path, output: Path, s: Items, e: Entry): Result<Items, BuildError> {
    match Classify(e)
    case Skip => Ok(s)
    case Drop => Ok(s)
    case Copy =>
      (match WriteInto(rev, output, s.dirs, DirOf(e.rel))
       case Err(x) => Err(x)
       case Ok(dirs) => Ok(s.(dirs := dirs, copied := s.copied + [output + e.rel])))
    case Process(page) => ProcessStep(rev, cfg, cwd, output, s, e.rel, page)
  }

  /** The walk over `entries` in order, stopping at the first error. */
  function Walk(rev: Revision, cfg: C.Config, cwd: Path, output: Path, entries: seq<Entry>): Result<Items, BuildError> {
    if |entries| == 0 then Ok(NoItems)
    else match Walk(rev, cfg, cwd, output, entries[..|entries| - 1])
      case Err(e) => Err(e)
      case Ok(s) => Step(rev, cfg, cwd, output, s, entries[|entries| - 1])
  }

  /** The tag loop of `items`. */
  method AddLinkToTags(tags: Tags, order: seq<string>, ts: seq<string>, link: Link)
    returns (tags': Tags, order': seq<string>)
    ensures (tags', order') == AddLinks(tags, order, ts, link)
  {
    tags', order' := tags, order;
    var i := 0;
    while i < |ts|
      invariant 0 <= i <= |ts|
      invariant AddLinks(tags', order', ts[i..], link) == AddLinks(tags, order, ts, link)
    {
      var t := ts[i];
      if t in tags' {
        tags' := tags'[t := tags'[t] + [link]];
      } else {
        tags' := tags'[t := [link]];
        order' := order' + [t];
      }
      assert ts[i..][1..] == ts[i + 1..];
      i := i + 1;
    }
  }

  /** One published document, as the body of the walk loop does it. */
  method ProcessDocument(rev: Revision, cfg: C.Config, cwd: Path, output: Path, s: Items, rel: Path, page: Content.Page)
    returns (r: Result<Items, BuildError>)
    requires page.meta.published.Some?
    ensures r == ProcessStep(rev, cfg, cwd, output, s, rel, page)
  {
    var link := LinkFor(rev, cfg, cwd, rel, page.meta);
    if link.Err? {
      return Err(link.error);
    }
    var tags, order := AddLinkToTags(s.tags, s.tagOrder, page.meta.tags, link.value);
    var out := output + rel;
    var rendered := Content.Render(cfg, page, out, |rel|, None);
    if rendered.Err? {
      assert false;
    }
    // `Page::render` creates the page's directory before writing it.
    var s1 := s.(tags := tags, tagOrder := order, dirs := s.dirs + Ancestors(DirOf(rel)),
                 rendered := s.rendered + [(out, rendered.value)]);
    if InGemlog(rel) {
      var ts := StampFor(rev, page.meta.published.value);
      if ts.Err? {
        return Err(BadTime(ts.error));
      }
      return Ok(s1.(posts := Insert(s.posts, ts.value, page.meta)));
    } else {
      return Ok(s1.(pages := s.pages[rel := page.meta]));
    }
  }

  /** The body of the walk loop for one entry: skip it, copy it or process
      it. */
  method WalkEntry(rev: Revision, cfg: C.Config, cwd: Path, output: Path, s: Items, e: Entry)
    returns (r: Result<Items, BuildError>)
    ensures r == Step(rev, cfg, cwd, output, s, e)
  {
    match Classify(e) {
      case Skip => r := Ok(s);
      case Drop => r := Ok(s);
      case Copy =>
        var dirs := WriteInto(rev, output, s.dirs, DirOf(e.rel));
        if dirs.Err? {
          r := Err(dirs.error);
        } else {
          r := Ok(s.(dirs := dirs.value, copied := s.copied + [output + e.rel]));
        }
      case Process(page) => r := ProcessDocument(rev, cfg, cwd, output, s, e.rel, page);
    }
  }

  /** `items`: walks the entries in order, filling the posts, pages and tags;
      `cwd` is the (canonical) working directory and `output` the output
      directory. */
  method ItemsOf(rev: Revision, cfg: C.Config, cwd: Path, output: Path, entries: seq<Entry>)
    returns (r: Result<Items, BuildError>)
    ensures r == Walk(rev, cfg, cwd, output, entries)
  {
    var s := NoItems;
    var i := 0;
    while i < |entries|
      invariant 0 <= i <= |entries|
      invariant Walk(rev, cfg, cwd, output, entries[..i]) == Ok(s)
    {
      assert entries[..i + 1][..i] == entries[..i];
      var next := WalkEntry(rev, cfg, cwd, output, s, entries[i]);
      if next.Err? {
        WalkStopsAtError(rev, cfg, cwd, output, entries, i + 1);
        return next;
      }
      s := next.value;
      i := i + 1;
    }
    assert entries[..i] == entries;
    return Ok(s);
  }

  /** Once the walk of a prefix fails, the whole walk fails the same way. */
  lemma {:induction false} WalkStopsAtError(rev: Revision, cfg: C.Config, cwd: Path, output: Path, entries: seq<Entry>, n: nat)
    requires n <= |entries| && Walk(rev, cfg, cwd, output, entries[..n]).Err?
    ensures Walk(rev, cfg, cwd, output, entries) == Walk(rev, cfg, cwd, output, entries[..n])
    decreases |entries| - n
  {
    if n < |entries| {
      assert entries[..n + 1][..n] == entries[..n];
      WalkErrStep(rev, cfg, cwd, output, entries[..n + 1]);
      WalkStopsAtError(rev, cfg, cwd, output, entries, n + 1);
    } else {
      assert entries[..n] == entries;
    }
  }

  /** An error before the last entry is the error of the whole walk. */
  lemma WalkErrStep(rev: Revision, cfg: C.Config, cwd: Path, output: Path, entries: seq<Entry>)
    requires |entries| > 0 && Walk(rev, cfg, cwd, output, entries[..|entries| - 1]).Err?
    ensures Walk(rev, cfg, cwd, output, entries) == Walk(rev, cfg, cwd, output, entries[..|entries| - 1])
  {
  }

  // ---- When the walk fails ----

  /** Whether an entry stops the walk: a published document when the domain
      is invalid, or a post whose timestamp cannot be computed. What the walk
      has collected before it plays no part. */
  predicate Fails(rev: Revision, cfg: C.Config, e: Entry) {
    match Classify(e)
    case Process(page) =>
      !Urls.ValidDomain(cfg.domain) || (InGemlog(e.rel) && StampFor(rev, page.meta.published.value).Err?)
    case _ => false
  }

  /** Whether the copy of `e` fails because its directory does not exist
      among `dirs`: only as written, where `fs::copy` runs without creating
      it. */
  predicate Blocked(rev: Revision, dirs: set<Path>, e: Entry) {
    rev == AsWritten && Classify(e) == Copy && DirOf(e.rel) !in dirs
  }

  /** One entry stops the walk when it fails on its own or its copy is
      blocked by the directories made so far. */
  lemma StepFails(rev: Revision, cfg: C.Config, cwd: Path, output: Path, s: Items, e: Entry)
    ensures Step(rev, cfg, cwd, output, s, e).Err? <==> Fails(rev, cfg, e) || Blocked(rev, s.dirs, e)
  {
  }

  /** The output directories that the walk of `entries` makes: each rendered
      document's directory and those above it, and, once corrected, each
      copied file's. */
  function Created(rev: Revision, entries: seq<Entry>): set<Path> {
    if |entries| == 0 then {}
    else Made(rev, Created(rev, entries[..|entries| - 1]), entries[|entries| - 1])
  }

  /** The directories after one entry has been handled. */
  function Made(rev: Revision, dirs: set<Path>, e: Entry): set<Path> {
    match Classify(e)
    case Process(_) => dirs + Ancestors(DirOf(e.rel))
    case Copy => if rev == Corrected then dirs + Ancestors(DirOf(e.rel)) else dirs
    case _ => dirs
  }

  /** A step that succeeds leaves the directories `Made` lists. */
  lemma StepDirs(rev: Revision, cfg: C.Config, cwd: Path, output: Path, s: Items, e: Entry)
    requires Step(rev, cfg, cwd, output, s, e).Ok?
    ensures Step(rev, cfg, cwd, output, s, e).value.dirs == Made(rev, s.dirs, e)
  {
    match Classify(e)
    case Process(page) => ProcessDirs(rev, cfg, cwd, output, s, e.rel, page);
    case Copy =>
    case Skip =>
    case Drop =>
  }

  /** Rendering a document makes its directory and those above it. */
  lemma ProcessDirs(rev: Revision, cfg: C.Config, cwd: Path, output: Path, s: Items, rel: Path, page: Content.Page)
    requires page.meta.published.Some? && ProcessStep(rev, cfg, cwd, output, s, rel, page).Ok?
    ensures ProcessStep(rev, cfg, cwd, output, s, rel, page).value.dirs == s.dirs + Ancestors(DirOf(rel))
  {
    var link := LinkFor(rev, cfg, cwd, rel, page.meta).value;
    var (tags, order) := AddLinks(s.tags, s.tagOrder, page.meta.tags, link);
    var out := output + rel;
    var text := Content.Rendered(cfg, page, out, |rel|, None, Content.RootText(cfg));
    var s1 := s.(tags := tags, tagOrder := order, dirs := s.dirs + Ancestors(DirOf(rel)),
                 rendered := s.rendered + [(out, text)]);
    var r := ProcessStep(rev, cfg, cwd, output, s, rel, page).value;
    if InGemlog(rel) {
      assert r == s1.(posts := Insert(s.posts, StampFor(rev, page.meta.published.value).value, page.meta));
    } else {
      assert r == s1.(pages := s.pages[rel := page.meta]);
    }
  }

  /** A walk that completes has made exactly the directories `Created` lists. */
  lemma {:induction false} WalkDirs(rev: Revision, cfg: C.Config, cwd: Path, output: Path, entries: seq<Entry>)
    requires Walk(rev, cfg, cwd, output, entries).Ok?
    ensures Walk(rev, cfg, cwd, output, entries).value.dirs == Created(rev, entries)
    decreases |entries|
  {
    if |entries| > 0 {
      var init := entries[..|entries| - 1];
      WalkDirs(rev, cfg, cwd, output, init);
      StepDirs(rev, cfg, cwd, output, Walk(rev, cfg, cwd, output, init).value, entries[|entries| - 1]);
    }
  }

  /** As written, a directory exists after the walk exactly when some
      rendered document lies in it or below it: copies make none. */
  lemma {:induction false} CreatedAsWritten(entries: seq<Entry>, d: Path)
    ensures d in Created(AsWritten, entries) <==>
      exists j :: 0 <= j < |entries| && Classify(entries[j]).Process? && StartsWith(DirOf(entries[j].rel), d)
    decreases |entries|
  {
    if |entries| > 0 {
      var init := entries[..|entries| - 1];
      CreatedAsWritten(init, d);
      MadeAsWritten(Created(AsWritten, init), entries[|entries| - 1], d);
      SomeSnoc(entries, e => Classify(e).Process? && StartsWith(DirOf(e.rel), d));
    }
  }

  /** As written, one entry adds a directory only by rendering into it or
      below it. */
  lemma MadeAsWritten(dirs: set<Path>, e: Entry, d: Path)
    ensures d in Made(AsWritten, dirs, e) <==> d in dirs || (Classify(e).Process? && StartsWith(DirOf(e.rel), d))
  {
  }

  /** Whether entry `e` stops the walk when the entries `before` came first. */
  predicate FailsAfter(rev: Revision, cfg: C.Config, before: seq<Entry>, e: Entry) {
    Fails(rev, cfg, e) || Blocked(rev, Created(rev, before), e)
  }

  /** The walk fails exactly when one of its entries fails after those before
      it. */
  lemma {:induction false} WalkFails(rev: Revision, cfg: C.Config, cwd: Path, output: Path, entries: seq<Entry>)
    ensures Walk(rev, cfg, cwd, output, entries).Err? <==>
      exists i :: 0 <= i < |entries| && FailsAfter(rev, cfg, entries[..i], entries[i])
    decreases |entries|
  {
    if |entries| > 0 {
      var n := |entries| - 1;
      var init := entries[..n];
      WalkFails(rev, cfg, cwd, output, init);
      if Walk(rev, cfg, cwd, output, init).Ok? {
        WalkDirs(rev, cfg, cwd, output, init);
        StepFails(rev, cfg, cwd, output, Walk(rev, cfg, cwd, output, init).value, entries[n]);
      }
      SomeAfterSnoc(entries, (before, e) => FailsAfter(rev, cfg, before, e));
    }
  }

  /** Some element satisfies `p` together with the elements before it exactly
      when some element before the last does, or the last one does. */
  lemma SomeAfterSnoc<T>(xs: seq<T>, p: (seq<T>, T) -> bool)
    requires |xs| > 0
    ensures var init := xs[..|xs| - 1];
      (exists i :: 0 <= i < |xs| && p(xs[..i], xs[i]))
      <==> (exists i :: 0 <= i < |init| && p(init[..i], init[i])) || p(init, xs[|xs| - 1])
  {
    var init := xs[..|xs| - 1];
    if exists i :: 0 <= i < |xs| && p(xs[..i], xs[i]) {
      var i :| 0 <= i < |xs| && p(xs[..i], xs[i]);
      if i < |init| {
        assert init[..i] == xs[..i] && init[i] == xs[i];
      }
    }
    if exists i :: 0 <= i < |init| && p(init[..i], init[i]) {
      var i :| 0 <= i < |init| && p(init[..i], init[i]);
      assert xs[..i] == init[..i] && xs[i] == init[i];
    }
  }

  /** Corrected, no copy is blocked: the walk fails exactly when a document
      fails on its own. */
  lemma CorrectedWalkFails(cfg: C.Config, cwd: Path, output: Path, entries: seq<Entry>)
    ensures Walk(Corrected, cfg, cwd, output, entries).Err? <==>
      exists i :: 0 <= i < |entries| && Fails(Corrected, cfg, entries[i])
  {
    WalkFails(Corrected, cfg, cwd, output, entries);
    assert forall i :: 0 <= i < |entries| ==>
      (FailsAfter(Corrected, cfg, entries[..i], entries[i]) <==> Fails(Corrected, cfg, entries[i]));
  }

  /** A file copied before anything was rendered into its directory stops
      the walk as written (`content/images/logo.png` with no document below
      `images`); corrected, its directory is created and it is copied. */
  lemma CopyBeforeItsDirectory(cfg: C.Config, cwd: Path, output: Path)
    ensures var entries := [Entry(["images", "logo.png"], true, None)];
      && Walk(AsWritten, cfg, cwd, output, entries) == Err(MissingDir(output + ["images"]))
      && Walk(Corrected, cfg, cwd, output, entries) == Ok(NoItems.(dirs := {[], ["images"]}, copied := [output + ["images", "logo.png"]]))
  {
    var e := Entry(["images", "logo.png"], true, None);
    var n := "logo.png";
    assert n[|n| - 1] == 'g' && n[|n| - 2] == 'n' && n[|n| - 3] == 'p' && n[|n| - 4] == '.';
    assert n[..|n| - 1] == "logo.pn";
    assert "logo.pn"[..6] == "logo.p";
    assert "logo.p"[..5] == "logo.";
    assert LastDot(n) == Some(4);
    assert n[5..] == "png";
    assert !IsGmi(e.rel);
    assert Classify(e) == Copy;
    assert DirOf(e.rel) == ["images"];
    AncestorsOfName("images");
    assert [e][..0] == [];
    assert Walk(Corrected, cfg, cwd, output, [e]) == Step(Corrected, cfg, cwd, output, NoItems, e);
    StepIgnored(Corrected, cfg, cwd, output, NoItems, e);
    assert NoItems.dirs + Ancestors(["images"]) == {[], ["images"]};
    assert NoItems.copied + [output + e.rel] == [output + ["images", "logo.png"]];
  }

  /** Some element satisfies `p` exactly when some element before the last
      does, or the last one does. */
  lemma SomeSnoc<T>(xs: seq<T>, p: T -> bool)
    requires |xs| > 0
    ensures var init := xs[..|xs| - 1];
      (exists i :: 0 <= i < |xs| && p(xs[i]))
      <==> (exists i :: 0 <= i < |init| && p(init[i])) || p(xs[|xs| - 1])
  {
    var init := xs[..|xs| - 1];
    if exists i :: 0 <= i < |xs| && p(xs[i]) {
      var i :| 0 <= i < |xs| && p(xs[i]);
      if i < |init| {
        assert init[i] == xs[i];
      }
    }
    if exists i :: 0 <= i < |init| && p(init[i]) {
      var i :| 0 <= i < |init| && p(init[i]);
      assert xs[i] == init[i];
    }
  }

  /** Which posts stop the walk in each revision. As written, a post stops it
      unless its year has four digits and every other field two, since the
      unpadded time text is read back with fixed widths; corrected, only a
      time outside the calendar stops it. */
  lemma PostRejection(cfg: C.Config, e: Entry)
    requires Classify(e).Process? && InGemlog(e.rel) && Urls.ValidDomain(cfg.domain)
    ensures var t := e.page.value.meta.published.value;
      Fails(AsWritten, cfg, e) <==>
        !(InCalendar(t) && 1000 <= t.year && t.month >= 10 && t.day >= 10
          && t.hour >= 10 && t.minute >= 10 && t.second >= 10)
    ensures Fails(Corrected, cfg, e) <==> !InCalendar(e.page.value.meta.published.value)
  {
  }

  /** A post published at 2024-01-01T00:00:00Z stops the walk as written and
      is kept once the time is padded. */
  lemma PaddingDecidesTheWalk(cfg: C.Config, cwd: Path, output: Path, page: Content.Page)
    requires Urls.ValidDomain(cfg.domain) && page.meta.published == Some(Time(2024, 1, 1, 0, 0, 0))
    ensures var entries := [Entry(["gemlog", "hello.gmi"], true, Some(page))];
      && Walk(AsWritten, cfg, cwd, output, entries).Err?
      && Walk(Corrected, cfg, cwd, output, entries).Ok?
  {
    var e := Entry(["gemlog", "hello.gmi"], true, Some(page));
    var n := "hello.gmi";
    assert n[|n| - 1] == 'i' && n[|n| - 2] == 'm' && n[|n| - 3] == 'g' && n[|n| - 4] == '.';
    assert n[..|n| - 1] == "hello.gm";
    assert "hello.gm"[..7] == "hello.g";
    assert "hello.g"[..6] == "hello.";
    assert LastDot(n) == Some(5);
    assert n[6..] == "gmi";
    assert IsGmi(e.rel);
    assert Classify(e) == Process(page);
    Times.UnpaddedTimeIsRejected();
    assert Fails(AsWritten, cfg, e);
    assert !Fails(Corrected, cfg, e);
    WalkFails(AsWritten, cfg, cwd, output, [e]);
    WalkFails(Corrected, cfg, cwd, output, [e]);
  }

  // ---- What the walk guarantees ----

  ghost predicate Good(s: Items) {
    Sorted(s.posts) && AllPublished(s.posts) && Enumerates(s.tagOrder, s.tags) && Rooted(s.dirs)
  }

  lemma StepKeepsGood(rev: Revision, cfg: C.Config, cwd: Path, output: Path, s: Items, e: Entry)
    requires Good(s) && Step(rev, cfg, cwd, output, s, e).Ok?
    ensures Good(Step(rev, cfg, cwd, output, s, e).value)
  {
    match Classify(e)
    case Skip =>
    case Drop =>
    case Copy =>
    case Process(page) =>
      var link := LinkFor(rev, cfg, cwd, e.rel, page.meta).value;
      AddLinksSpec(s.tags, s.tagOrder, page.meta.tags, link);
      if InGemlog(e.rel) {
        var ts := StampFor(rev, page.meta.published.value).value;
        InsertSpec(s.posts, ts, page.meta);
        var ps := Insert(s.posts, ts, page.meta);
        forall i | 0 <= i < |ps| ensures ps[i].1.published.Some? {
          InsertValues(s.posts, ts, page.meta, i);
        }
      }
  }

  /** Every value of an insertion result is the new value or an old one. */
  lemma {:induction false} InsertValues(ps: Posts, k: int, v: Content.Meta, i: nat)
    requires i < |Insert(ps, k, v)|
    ensures Insert(ps, k, v)[i].1 == v || exists j :: 0 <= j < |ps| && Insert(ps, k, v)[i].1 == ps[j].1
    decreases |ps|
  {
    if |ps| > 0 && ps[0].0 != k && !(k < ps[0].0) && i > 0 {
      InsertValues(ps[1..], k, v, i - 1);
      var r := Insert(ps[1..], k, v);
      if r[i - 1].1 != v {
        var j :| 0 <= j < |ps[1..]| && r[i - 1].1 == ps[1..][j].1;
        assert ps[j + 1].1 == r[i - 1].1;
      }
    } else if |ps| > 0 && i > 0 {
      if ps[0].0 == k {
        assert Insert(ps, k, v)[i].1 == ps[i].1;
      } else if k < ps[0].0 {
        assert Insert(ps, k, v)[i].1 == ps[i - 1].1;
      }
    }
  }

  /** After the walk, posts are in ascending timestamp order and all
      published, and the tag order lists every tag once. */
  lemma {:induction false} WalkGood(rev: Revision, cfg: C.Config, cwd: Path, output: Path, entries: seq<Entry>)
    requires Walk(rev, cfg, cwd, output, entries).Ok?
    ensures Good(Walk(rev, cfg, cwd, output, entries).value)
    decreases |entries|
  {
    if |entries| > 0 {
      var init := entries[..|entries| - 1];
      WalkGood(rev, cfg, cwd, output, init);
      StepKeepsGood(rev, cfg, cwd, output, Walk(rev, cfg, cwd, output, init).value, entries[|entries| - 1]);
    }
  }

  /** An entry that is skipped or dropped changes nothing. A copied one only
      adds its output path to the copies: as written, when its directory
      already exists (and otherwise stops the walk); corrected, after making
      that directory. */
  lemma StepIgnored(rev: Revision, cfg: C.Config, cwd: Path, output: Path, s: Items, e: Entry)
    ensures Classify(e) == Skip || Classify(e) == Drop ==> Step(rev, cfg, cwd, output, s, e) == Ok(s)
    ensures Classify(e) == Copy && rev == AsWritten ==>
      Step(rev, cfg, cwd, output, s, e) ==
        if DirOf(e.rel) in s.dirs then Ok(s.(copied := s.copied + [output + e.rel]))
        else Err(MissingDir(output + DirOf(e.rel)))
    ensures Classify(e) == Copy && rev == Corrected ==>
      Step(rev, cfg, cwd, output, s, e) ==
        Ok(s.(dirs := s.dirs + Ancestors(DirOf(e.rel)), copied := s.copied + [output + e.rel]))
  {
  }

  /** A published document under `gemlog` becomes the post at its timestamp
      (replacing any post with the same one) and leaves the pages alone; any
      other published document becomes the page at its relative path and
      leaves the posts alone. Either way it is rendered once. */
  lemma ProcessedPlacement(rev: Revision, cfg: C.Config, cwd: Path, output: Path, s: Items, e: Entry)
    requires Classify(e).Process? && Step(rev, cfg, cwd, output, s, e).Ok? && Sorted(s.posts)
    ensures var s2 := Step(rev, cfg, cwd, output, s, e).value;
      var meta := e.page.value.meta;
      && |s2.rendered| == |s.rendered| + 1
      && s2.rendered[|s.rendered|].0 == output + e.rel
      && s2.copied == s.copied
      && s2.dirs == s.dirs + Ancestors(DirOf(e.rel))
      && (InGemlog(e.rel) ==>
            var ts := StampFor(rev, meta.published.value).value;
            && Lookup(s2.posts, ts) == Some(meta)
            && (forall k :: k != ts ==> Lookup(s2.posts, k) == Lookup(s.posts, k))
            && s2.pages == s.pages)
      && (!InGemlog(e.rel) ==> s2.pages == s.pages[e.rel := meta] && s2.posts == s.posts)
  {
    var meta := e.page.value.meta;
    if InGemlog(e.rel) {
      InsertSpec(s.posts, StampFor(rev, meta.published.value).value, meta);
    }
  }

  /** The walk without its ignored entries. */
  function Kept(entries: seq<Entry>): (r: seq<Entry>)
    ensures forall e :: e in r ==> e in entries && (Classify(e).Process? || Classify(e) == Copy)
  {
    if |entries| == 0 then []
    else
      var e := entries[|entries| - 1];
      var init := Kept(entries[..|entries| - 1]);
      if Classify(e).Process? || Classify(e) == Copy then init + [e] else init
  }

  /** Removing the skipped and dropped entries (the index files, drafts,
      unparsable documents, directories) does not change the outcome: none of
      them is rendered, copied or stored. */
  lemma {:induction false} WalkOfKept(rev: Revision, cfg: C.Config, cwd: Path, output: Path, entries: seq<Entry>)
    ensures Walk(rev, cfg, cwd, output, Kept(entries)) == Walk(rev, cfg, cwd, output, entries)
    decreases |entries|
  {
    if |entries| > 0 {
      var e := entries[|entries| - 1];
      var init := entries[..|entries| - 1];
      WalkOfKept(rev, cfg, cwd, output, init);
      if Classify(e).Process? || Classify(e) == Copy {
        var k := Kept(init) + [e];
        assert k[..|k| - 1] == Kept(init);
      }
    }
  }
}
