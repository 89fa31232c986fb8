# zond — a Dafny model of the capsule builder

zond is a static site generator for Gemini capsules. Pages and gemlog posts
are gemtext files under `content/`. Each starts with a RON metadata header:
title, summary, publication time and tags. A line `---` separates the header
from the body. `zond build` walks `content/`, renders every published
document into the output directory and copies every other file. It collects
the published gemlog posts by timestamp, and the links to tagged documents by
tag. It then writes:

- one page per tag and an index of all tags;
- the home index, whose `{% posts %}` placeholder becomes a list of the newest posts;
- the gemlog index;
- an Atom feed, when one is configured.

The tinylog is a single page, `content/tinylog.gmi`. Entries are prepended to
it, and its tags are merged in without duplicates.

The model covers:

- the build pipeline: the walk (`items`), the feed match of `run`, `render_tags`, `render_index`, `render_gemlog_index`, `Capsule::atom` and `Capsule::gemfeed`;
- the document model: `Meta`, `Page`, `get_path`, `to_disk`, `from_path`, `create`, `publish`, `render`, and the Atom categories;
- the publication `Time`, with its RFC 3339 text, chrono's fixed-width reading of that text, and its Unix timestamp;
- `Link` and `Link::get`;
- the `License` enum with its display and parsing;
- the configuration enums, `Person::to_atom` and `Config::url`;
- the shared footer writer and the feed's `GetPath`;
- the `Index` page;
- the tinylog `tags` and `update` commands.

Modules follow the source files:

| module | file |
|---|---|
| `Wrappers` | (Option and Result) |
| `Text` | the standard string operations the source uses |
| `Paths` | `Path`/`PathBuf` as a sequence of components |
| `Times` | `time.dfy` |
| `Urls` | the part of the `url` crate that `gemini://` URLs use |
| `Licenses` | `license.dfy` |
| `Config` | `config.dfy` |
| `Links`, `LinkResolver` | `link.dfy` |
| `Lib` | `lib.dfy` |
| `Content` | `content.dfy` |
| `Index` | `index.dfy` |
| `Tinylog` | `tinylog.dfy` |
| `BuildItems` (the walk) | `build_items.dfy` |
| `BuildRender` (the generated pages and feeds) | `build_render.dfy` |
| `Build` (`run`) | `build_run.dfy` |

How the source's state appears in the model:

- Posts, a `BTreeMap<i64, Meta>`, are a sorted association list. Insertion overwrites an equal key.
- Tags, a `HashMap<String, Vec<Link>>`, are a map plus the order in which tags were first inserted. That order stands in for the map's iteration order.
- The home page and the gemlog index page are passed in, as the `Option<Page>` that `Page::from_path` gives.
- The file system, the working directory and the clock are parameters.
- Every file a step would write is returned as a (path, text) pair.
- The directories that exist below the output directory are a set of relative paths. `run` removes the output directory before the walk, so the set starts empty. Rendering a page (`Page::render`) and writing the Atom feed (`Feed::to_disk`) create their directory. Writing or copying into a directory that does not exist fails with `MissingDir`. Writing a file at a path that is a directory (one ending in `..`, or one the walk created by rendering a document below it) fails with `IsDirectory`.
- The footer writer is a class whose text only grows. `Index::to_disk` writes into a `Disk` object that maps paths to texts.
- The build takes a `Revision`. `AsWritten` is build.rs as it stands: its own `Link::get`, timestamps read from the unpadded time text, and tag pages named with `set_extension`. `Corrected` fixes the six defects listed under "## Findings": it uses the content-relative `Link::get` of src/link.rs, the zero-padded time text, and tag pages saved as `<tag>.gmi`, and it creates each directory before it copies a file or writes the tag index or the gemlog index into it. Every property of the walk and the build is proved for both.

## Model

| member | source | states |
|---|---|---|
| Paths.Ancestors | src/content/mod.rs:249-253 | `create_dir_all` leaves exactly the directory and every directory above it existing |
| Times.ToRfc3339 | src/content/time.rs:48-58 | the RFC 3339 text is the `Display` text: unpadded fields, `T` and `Z` separators |
| Times.ParseLayout | src/content/time.rs:60-62 | chrono reads a date-time as a year of exactly four digits and five fields of exactly two, separated by `-`, `-`, `T`, `:`, `:` and ended by `Z`; digit strings of any other width are rejected |
| Times.ReadUnpadded | src/content/time.rs:48-62 | the unpadded text reads back as the same time exactly when the year has four digits and every other field two |
| Times.LessIsStrictTotalOrder | src/content/time.rs:10-18 | the derived field-by-field ordering of `Time` is a strict total order |
| Times.ToDateTime | src/content/time.rs:60-62 | `to_date_time` succeeds exactly for a calendar time (a leap second allowed) whose year has four digits and whose other fields have two, and then gives that time |
| Times.Timestamp | src/content/time.rs:64-66 | `timestamp` succeeds exactly when `to_date_time` does, and gives the seconds since 1970-01-01T00:00:00Z, a leap second counted as the second before it |
| Times.LessIffEarlierTimestamp | src/content/time.rs:64-66 | for valid times, an earlier time in field order is exactly a smaller timestamp; equal times are exactly equal timestamps |
| Times.UnixSecondsOrder | src/content/time.rs:64-66 | for calendar times with leap seconds, a smaller timestamp is an earlier time, and an earlier time never has a larger timestamp |
| Times.TimestampOrder | src/content/time.rs:64-66 | whenever both timestamps exist, a smaller one is an earlier time; without leap seconds the two orders agree, and equal keys are equal times |
| Times.LeapSecondSharesTimestamp | src/content/time.rs:64-66 | 2016-12-31 23:59:59 and the leap second 23:59:60 are different times with the same timestamp, so two such posts share a key |
| Times.UnpaddedTimeIsRejected | src/content/time.rs:48-66 | the first second of 2024 is written `2024-1-1T0:0:0Z`, which has no timestamp; written `2024-01-01T00:00:00Z` it has one |
| Times.ReadPadded | src/content/time.rs:48-62 | the zero-padded text reads back as the same time exactly when the year is between 0 and 9999 and the other fields are below 100 |
| Times.PaddedToDateTime | src/content/time.rs:60-62 | over the zero-padded text, `to_date_time` succeeds exactly for a calendar time and gives it back |
| Times.PaddedTimestamp | src/content/time.rs:64-66 | over the zero-padded text, `timestamp` exists exactly for a calendar time, and is its seconds since 1970-01-01T00:00:00Z |
| Times.PaddedTimestampExtends | src/content/time.rs:64-66 | wherever the unpadded timestamp exists the padded one is the same |
| Times.PaddedTimestampOrder | src/content/time.rs:64-66 | every clock time has a padded timestamp; an earlier time has exactly a smaller one, and equal times exactly equal ones |
| Licenses.LowerNameIsLowerCase | src/config/license.rs:65-71 | each accepted lower-case spelling is its variant name lower-cased |
| Licenses.FromStrReadsNames | src/config/license.rs:62-75 | `From<&str>` reads each Creative Commons variant back from its variant name and from that name lower-cased |
| Licenses.FromStrReadsSpellings | src/config/license.rs:62-75 | a string gives a given Creative Commons licence exactly when it is one of that licence's accepted spellings |
| Licenses.FromStrOther | src/config/license.rs:72 | any other string becomes `Other` holding that string, and displays as itself |
| Licenses.DisplayDistinct | src/config/license.rs:43-60 | distinct Creative Commons licences display differently |
| Licenses.OtherRoundTrip | src/config/license.rs:56 | a custom licence whose text is no reserved spelling reads back from its display |
| Config.DefaultFeed | src/config/mod.rs:21-31 | the default feed setting is `Atom` |
| Config.DefaultDisplayDate | src/config/mod.rs:54-63 | the default date display is `GemlogOnly` |
| Config.DisplayDateFromStr | src/config/mod.rs:65-78 | each variant is read from exactly its listed spellings, and anything else is `ParseEnumError` |
| Config.DisplayDateNameRoundTrip | src/config/mod.rs:65-78 | every variant reads back from its own name |
| Config.ToAtom | src/config/mod.rs:44-52 | the Atom person has the same name and e-mail, and the home page as its URI |
| Config.Url | src/config/mod.rs:145-161 | the capsule URL exists exactly for a valid domain; its host is the domain and its path is the normalised configured path |
| Config.UrlString | src/config/mod.rs:145-161 | without a path the URL text is `gemini://<domain>`; with an absolute path it is `gemini://<domain><path>` |
| Links.DisplayShape | src/link.rs:14-18 | a link line is `=> `, the URL, a space, then the display text; it holds no line break when its parts hold none |
| LinkResolver.Get | src/link.rs:21-35 | fails exactly when the domain is invalid (with the URL error first) or when the origin is not under `<cwd>/content`; otherwise the URL is `gemini://<domain>` plus the path relative to `content`, and the text is date, dash, title |
| LinkResolver.GetIgnoresCapsulePath | src/link.rs:22-26 | the configured capsule path plays no part in the link, since `set_path` replaces it |
| LinkResolver.GetOfContentPath | src/link.rs:21-35 | a document at `<cwd>/content/<rel>` links to `gemini://<domain>/<rel>`, and fails only for an invalid domain |
| Lib.FeedGetPath | src/lib.rs:107-114 | the feed goes to `<root>/gemlog/atom.xml` |
| Lib.FeedGetPathIgnoresSubdir | src/lib.rs:107-114 | the sub-directory argument is ignored |
| Lib.LinkLines | src/lib.rs:130-132 | one line per footer link, in configured order, each the link's display text |
| Lib.FooterShape | src/lib.rs:120-139 | the footer lines are: a blank line; the licence line iff a licence is set; the copyright line with the given year; the footer links in order; the contact line iff `show_email` is set and an e-mail is known |
| Lib.Writer.WriteLine | src/lib.rs:121 | `writeln!` appends the line and a line break, and keeps what was written before |
| Lib.WriteFooterHead | src/lib.rs:121-129 | appends the blank line, the optional licence line and the copyright line |
| Lib.WriteLicenseLine | src/lib.rs:122-128 | appends the licence line to the lines written so far |
| Lib.WriteFooter | src/lib.rs:120-139 | appends exactly the footer lines, each followed by a line break, after the text already written |
| Lib.WriteLinkLines | src/lib.rs:130-132 | appends one line per footer link, in configured order, each followed by a line break |
| Lib.FooterTextStartsBlank | src/lib.rs:121 | the footer text begins with a line break |
| Lib.Disk.Write | src/content/index.rs:32-35 | `fs::write` replaces the file at the path with the text and leaves other files alone |
| Content.Publish | src/content/mod.rs:82-84 | after publishing, the publication time is `now` and the document is no draft; title, summary and tags are kept |
| Content.SlugShape | src/content/mod.rs:88-89 | the file name is the trimmed title, lower-cased, with spaces turned into `_`, followed by `.gmi`; it holds no space |
| Content.SlugIgnoresSurroundingSpace | src/content/mod.rs:88 | titles that differ only in surrounding white space share a file name |
| Content.GetPath | src/content/mod.rs:87-95 | a page with a path keeps it; otherwise it is `content/<slug>`; a post is `content/gemlog/<slug>` |
| Content.FirstDelimiter | src/content/mod.rs:125 | finds the first `---` line at or after a position, and there is none before it |
| Content.FromPath | src/content/mod.rs:122-135 | an unreadable file gives no page; otherwise the header and the body are split at the first `---` line and trimmed, and a header that does not decode gives no page |
| Content.ExtractToDisk | src/content/mod.rs:107-118 | splitting what `to_disk` wrote gives back the encoded header and the body, when the encoding holds no `---` line |
| Content.FromPathToDisk | src/content/mod.rs:107-135 | reading back what `to_disk` wrote gives the same metadata and the trimmed body |
| Content.Create | src/content/mod.rs:138-176 | the new file is at `get_path` of the title and kind, and holds a draft with the title, summary and tags, and an empty body |
| Content.CreateReadsBack | src/content/mod.rs:138-176 | a created document reads back as that draft |
| Content.PublishPage | src/content/mod.rs:179-186 | nothing is written when the document does not read; otherwise it is rewritten at `get_path` with its metadata published at `now` |
| Content.PublishPageReadsBack | src/content/mod.rs:179-186 | a published document reads back published at `now`, with the same title, tags and body |
| Content.Categories | src/content/mod.rs:52-76 | one category per tag, in order, whose scheme is the URL of the path `PathBuf` gives the tag's page (`tags.gmi` for `.` and the empty tag, `tags/..` for `..`); an invalid domain is an error exactly when there is a tag |
| Content.TagLines | src/content/mod.rs:219-226 | one line per tag, in order |
| Content.AppendTags | src/content/mod.rs:216-228 | appends the tags section: the heading, a line per tag and a blank line, or nothing without tags |
| Content.AppendTagLines | src/content/mod.rs:219-226 | appends one link line per tag, in the order the document lists them |
| Content.AppendNav | src/content/mod.rs:229-246 | appends the home link, then the "All posts" link for a page under `gemlog` |
| Content.Render | src/content/mod.rs:196-256 | fails exactly when the page needs the capsule URL (it has tags, or its depth is not 1 or 2) and the domain is invalid; otherwise the text is heading, tags section, navigation, footer |
| Content.TagsSectionShape | src/content/mod.rs:216-228 | the tags section is empty exactly when the page has no tags |
| Content.DepthLinks | src/content/mod.rs:220-236 | tag and home links are relative at depths 1 and 2; tag links are also relative at depth 3; otherwise they use the capsule URL |
| Content.HeadingStart | src/content/mod.rs:202-215 | the heading starts with the banner block exactly when there is a banner, otherwise with the title line |
| Content.RenderedStart | src/content/mod.rs:202-215 | a rendered page starts with the banner block when there is one, otherwise with `# <title>` |
| Content.AllPostsLine | src/content/mod.rs:238-246 | the navigation has an "All posts" line exactly when the output file's parent directory is `gemlog` |
| Index.GetPath | src/content/index.rs:18-27 | the index is at `<root>/index.gmi`, or `<root>/<subdir>/index.gmi`; an absolute sub-directory replaces the root |
| Index.GetPathShape | src/content/index.rs:18-27 | the path ends in `index.gmi`, and stays under the root unless the sub-directory is absolute |
| Index.ToDisk | src/content/index.rs:29-36 | the text is written verbatim at the path, and no other file changes |
| Tinylog.MergeTags | src/tinylog.rs:24-28 | the tag loop appends each requested tag that is not yet present |
| Tinylog.MergedIsExistingThenFresh | src/tinylog.rs:24-28 | existing tags keep their places, and the new ones follow once each, in request order |
| Tinylog.MergedMembers | src/tinylog.rs:24-28 | a tag is present afterwards exactly when it was present or was requested |
| Tinylog.MergedNoDuplicates | src/tinylog.rs:24-28 | merging into a list without duplicates creates none |
| Tinylog.MergedPresent | src/tinylog.rs:24-28 | requesting only tags that are present changes nothing |
| Tinylog.MergedIdempotent | src/tinylog.rs:24-28 | applying the same tags twice is applying them once |
| Tinylog.EnsureFile | src/tinylog.rs:34-52 | an existing file is kept; a missing one is created as the draft page "Tinylog" at `content/tinylog.gmi` |
| Tinylog.Tags | src/tinylog.rs:18-32 | nothing is written when the page does not read; otherwise the page is rewritten with the requested tags merged in |
| Tinylog.TagsOnMissingFile | src/tinylog.rs:18-22 | a missing tinylog is first created as an untagged page titled "Tinylog" |
| Tinylog.Update | src/tinylog.rs:54-79 | nothing happens when the page does not read; an unparseable log is an error; otherwise the entry is inserted, the page is published at the entry's time and the tags are merged |
| Tinylog.UpdateReadsBack | src/tinylog.rs:54-79 | the updated page reads back published at the entry's time, keeping its old tags first and holding no duplicate tag |
| BuildItems.ToGmi | src/command/build.rs:41-43 | a link's gemtext line is its display text and a line break |
| BuildItems.GetAsWritten | src/command/build.rs:45-56 | the build's own `Link::get` fails exactly for an invalid domain, and otherwise uses the whole absolute source path as the URL path |
| BuildItems.GetAsWrittenLeaksFileSystemPath | src/command/build.rs:45-56 | for a document at `/srv/content/gemlog/a.gmi`, that link ends in `/srv/content/gemlog/a.gmi`, while the capsule serves it at `/gemlog/a.gmi` |
| BuildItems.InsertKeys | src/command/build.rs:177 | inserting a post adds its key to the keys |
| BuildItems.InsertSorted | src/command/build.rs:177 | inserting keeps the posts in strictly ascending key order |
| BuildItems.InsertLookup | src/command/build.rs:177 | after inserting, the key maps to the new post, and every other key is unchanged |
| BuildItems.InsertSpec | src/command/build.rs:177 | `BTreeMap::insert`: sorted, keys plus the new key, and the new value overwrites |
| BuildItems.NewestFirst | src/command/build.rs:220 | `values().rev()`: the posts from the largest key down |
| BuildItems.KeysNewestFirst | src/command/build.rs:220 | the keys in the same reversed order |
| BuildItems.NewestFirstDescending | src/command/build.rs:220 | in a sorted map, reversed iteration gives strictly descending keys |
| BuildItems.AddLinkToTags | src/command/build.rs:168-174 | appends the link to each tag's list, and starts a list for a new tag |
| BuildItems.AddLinksSpec | src/command/build.rs:168-174 | afterwards the tag order still lists every known tag exactly once and extends the old order, and each tag's links gain this link once per time the document lists the tag |
| BuildItems.AddLinksOrder | src/command/build.rs:168-174 | the tag order stays a duplicate-free listing of the known tags and only grows at its end |
| BuildItems.AddLinksOf | src/command/build.rs:168-174 | a tag's links gain this link once per time the document lists the tag, at the end, whatever the other tags |
| BuildItems.AddLinksOnce | src/command/build.rs:168-174 | a tag the document does not carry keeps its links; a tag it carries once gains exactly this link at the end |
| BuildItems.FirstTagsOrder | src/command/build.rs:168-174 | the first document starts the tag order exactly when it carries a tag |
| BuildItems.AddLinksFrom | src/command/build.rs:168-174 | the tag order gains only tags the document carries |
| BuildItems.Classify | src/command/build.rs:150-194 | `index.gmi` and `gemlog/index.gmi` are skipped; a `.gmi` file is processed exactly when it reads and is published (and is otherwise dropped); any other regular file is copied |
| BuildItems.LinkFor | src/command/build.rs:167 | a document's link fails exactly for an invalid domain; as written its URL path is the whole source path, corrected it is the path relative to `content`; the text is date, dash, title |
| BuildItems.ProcessDocument | src/command/build.rs:163-181 | links the document, renders it, then files it under its timestamp (under `gemlog`) or under its relative path; a bad link or time aborts |
| BuildItems.StepFails | src/command/build.rs:163-193 | one entry aborts the walk exactly when it is a published document and the domain is invalid, or it is a post without a timestamp, or (as written) it is a copied file whose directory does not exist yet |
| BuildItems.WriteInto | src/command/build.rs:186-193 | writing or copying into a directory fails exactly when it is missing, and only as written, where the directories are then unchanged; corrected, the directory and those above it are created first and the write succeeds |
| BuildItems.WriteFile | src/command/build.rs:303 | `fs::write` fails exactly when the path names a directory, by ending in `..` or because a directory is there, with that path as the error, and otherwise creates no directory |
| BuildItems.ProcessDirs | src/content/mod.rs:249-253 | rendering a document creates its directory and every directory above it, and no other |
| BuildItems.StepDirs | src/command/build.rs:149-194 | after one entry the existing directories are those before plus, for a rendered document (and, corrected, a copied file), its directory and those above it |
| BuildItems.WalkDirs | src/command/build.rs:137-198 | a completed walk has created exactly the directories its entries create, in order |
| BuildItems.CreatedAsWritten | src/command/build.rs:137-198 | as written, a directory exists after the walk exactly when some rendered document lies in it or below it; copies create none |
| BuildItems.WalkFails | src/command/build.rs:149-196 | the walk aborts exactly when one of its entries does, given the directories the entries before it created |
| BuildItems.CorrectedWalkFails | src/command/build.rs:149-196 | corrected, the walk aborts exactly when some document fails on its own; no copy is blocked |
| BuildItems.CopyBeforeItsDirectory | src/command/build.rs:186-193 | the walk of `images/logo.png` alone aborts as written with `images` missing, and corrected copies it after creating `images` |
| BuildItems.PostRejection | src/command/build.rs:175-177 | as written a post aborts the build unless its year has four digits and every other field two; corrected only a time outside the calendar aborts it |
| BuildItems.PaddingDecidesTheWalk | src/command/build.rs:175-177 | a walk holding one post published at 2024-01-01 00:00:00 aborts as written and succeeds corrected |
| BuildItems.WalkEntry | src/command/build.rs:150-194 | one pass of the loop body skips, copies or processes the entry exactly as one step of the walk does |
| BuildItems.ItemsOf | src/command/build.rs:137-198 | the loop computes the walk: entries in order, stopping at the first error |
| BuildItems.WalkStopsAtError | src/command/build.rs:137-198 | once a prefix of the walk fails, the whole walk fails with the same error |
| BuildItems.StepKeepsGood | src/command/build.rs:149-196 | each entry keeps the posts sorted and published, and keeps every tag listed once in the tag order |
| BuildItems.WalkGood | src/command/build.rs:137-198 | a successful walk ends with sorted, published posts and an exact tag enumeration |
| BuildItems.StepIgnored | src/command/build.rs:155-194 | skipped and dropped entries change nothing; a copied file only records its output path: as written when its directory exists (otherwise the walk aborts with that directory), corrected after creating the directory |
| BuildItems.ProcessedPlacement | src/command/build.rs:175-181 | a processed gemlog post is found under its timestamp, any other page under its relative path; its rendering is recorded at the output path, and its directory and those above it now exist |
| BuildItems.Kept | src/command/build.rs:149-196 | the entries the walk acts on are processed or copied entries of the input |
| BuildItems.WalkOfKept | src/command/build.rs:149-196 | the walk over only those entries gives the same result |
| BuildRender.AppendBlock | src/command/build.rs:283-285 | the `push_str` loop appends one piece per element, in order |
| BuildRender.LinkBlockIsDisplayLines | src/command/build.rs:283-285 | a tag page's link block is the links' display lines, each followed by a line break |
| BuildRender.TagPage | src/command/build.rs:282-302 | a tag page is the heading, its links in stored order, the two navigation lines and the footer |
| BuildRender.RenderTags | src/command/build.rs:268-323 | the tag index lists every tag in iteration order; the pages are written one per tag until one fails, as written at the tag pushed onto `tags` with its extension set to `gmi`, corrected at `tags/<tag>.gmi`; the stage fails at the first tag whose page path is a directory (as written the tag `..`, whose page path is the output directory, or a tag whose page path is a directory the walk rendered into), or else when `tags` does not exist for the index, which as written happens when there is no tag and nothing created it before, or when `tags/index.gmi` is a directory |
| BuildRender.TagLoop | src/command/build.rs:273-303 | the loop writes the pages of the tags before the first whose path is a directory (ending in `..`, or one that exists) and stops there with that path; when no page fails it has built one index line and one page per tag, in order, and left `tags` existing exactly as `TagDirs` says |
| BuildRender.TagStep | src/command/build.rs:274-282 | one round of the loop adds the tag's index line, creates `tags` as written, and yields the page's path and text; writing the page fails exactly when its path names a directory: as written the tag `..`, or a path that is already a directory |
| BuildRender.TagPageIsDirectory | src/command/build.rs:280-281 | a tag's page path ends in `..` exactly when the tag is `..`, and only as written; that path is `tags/..`, the output directory |
| BuildRender.TagPageRel | src/command/build.rs:276-281 | a tag's page lies directly in `tags`, or is `tags.gmi` beside it |
| BuildRender.TagsWithExtension | src/command/build.rs:280-281 | as written, the page of `.` and of the empty tag is `tags.gmi`, since `set_extension` acts on `tags` |
| BuildRender.PageWriteFailsWhen | src/command/build.rs:280-303 | writing a tag's page fails exactly when, as written, the tag is `..`, or when a directory already occupies the page's path |
| BuildRender.TagDirsElsewhere | src/command/build.rs:276-279 | the tag stage creates only `tags` and the output directory, so any other path is a directory during the stage exactly when it was one before |
| BuildRender.DotTagPages | src/command/build.rs:280-281 | as written, `PathBuf` puts the page of `.` and of the empty tag at `tags.gmi`, beside the `tags` directory, and leaves the page of `..` at `tags/..` |
| BuildRender.PagesBeforeFailure | src/command/build.rs:273-303 | the number of pages written before the loop stops is the index of the first tag whose page cannot be written, or all of them |
| BuildRender.PagesBeforeFailureAt | src/command/build.rs:273-303 | the loop stops early exactly when, as written, a tag is `..`, or some tag's page path is a directory already; it stops at such a tag, with `tags/..` for `..` |
| Paths.PushWithExtensionLast | src/command/build.rs:280-281 | after `push` and `set_extension` below a named directory, the path ends in `..` exactly when the pushed name is `..` |
| BuildRender.MakeTagsDir | src/command/build.rs:277-279 | the `create_dir_all` in the loop leaves `tags` and the output directory existing from the first tag on |
| BuildRender.TagPages | src/command/build.rs:273-303 | there is one tag page per tag, the i-th for the i-th tag visited, with its path and text |
| BuildRender.TagIndexLineInjective | src/command/build.rs:274 | different tags give different index lines |
| BuildRender.TagIndexListsEachTagOnce | src/command/build.rs:273-274 | the tag index has a line for a tag exactly when the tag is known, and only one |
| BuildRender.DottedTagPage | src/command/build.rs:274-281 | for the tag `v1.2` the index links `v1.2.gmi`, but `set_extension` saves the page as `tags/v1.gmi`, so the link has no target |
| BuildRender.TagIndexTarget | src/command/build.rs:274 | a tag index line is `=> `, the target, a space, the tag and a line break |
| BuildRender.CorrectedTagPageIsLinked | src/command/build.rs:274-281 | corrected, the file a tag's page is saved as is the target of that tag's index line, for every tag |
| BuildRender.CorrectedTagLineReachesPage | src/content/mod.rs:221 | corrected, a top-level page's link to a tag points at `tags/` and the file name the tag's page is saved as |
| BuildRender.CategoryNamesTagPage | src/content/mod.rs:57-63 | as written, an Atom category's path is the path the tag's page is saved at below the output directory, pushed onto the configured path: `tags/<name>` for an ordinary tag, `tags.gmi` for `.` and the empty tag, `tags/..` for `..` |
| BuildRender.PostFileName | src/command/build.rs:333-336 | the file name of a post's path is its slug |
| BuildRender.IndexPosts | src/command/build.rs:331-332 | the home index lists `min(entries, number of posts)` posts, the newest first |
| BuildRender.RenderIndex | src/command/build.rs:325-363 | nothing is written without a home page; otherwise `{% posts %}` is replaced by the listing and the footer follows |
| BuildRender.IndexListsNewest | src/command/build.rs:331-332 | the listed posts are in strictly descending timestamp order |
| BuildRender.IndexWithoutPlaceholder | src/command/build.rs:342 | a home page without the placeholder gets no listing |
| BuildRender.IndexCopyrightGlued | src/command/build.rs:343-349 | without a licence the home index is the page body with the copyright line glued to it, with no line break between them, then the contact line |
| BuildRender.RenderGemlogIndex | src/command/build.rs:365-402 | nothing is written without a gemlog index page; otherwise every post is listed newest first, then the navigation and the footer |
| BuildRender.Gemfeed | src/command/build.rs:250-266 | one line per post, newest first; an invalid domain is an error exactly when there is a post |
| BuildRender.FeedUrlOfPost | src/command/build.rs:253-257 | without a configured path a feed line points at `gemini://<domain>/content/gemlog/<slug>` |
| BuildRender.AtomSpec | src/command/build.rs:218-248 | the feed fails exactly when there are no posts or the domain is invalid; its entries are the posts newest first, its rights name the year of the post with the largest key, and its id and base are the capsule URL |
| BuildRender.Atom | src/command/build.rs:218-248 | the entries loop and the feed fields give exactly that feed |
| BuildRender.AtomYearFromLargestKey | src/command/build.rs:223-230 | the last post has the largest key and is the first entry |
| Build.FeedPart | src/command/build.rs:111-130 | `Atom` and `Both` give the Atom feed at `gemlog/atom.xml` or its error; `Gemini` and no setting give nothing |
| Build.FeedWritten | src/command/build.rs:68-91 | `Feed::to_disk` creates `gemlog` and then fails exactly when `gemlog/atom.xml` is a directory, with that path as the error |
| Build.FeedDirsElsewhere | src/command/build.rs:68-73 | the feed creates only `gemlog` and the output directory, so any other path is a directory after it exactly when it was one before |
| Build.FeedKeepsTagPaths | src/command/build.rs:68-73 | the feed makes no tag page path and not `tags/index.gmi` a directory |
| Build.BuildFeed | src/command/build.rs:111-130 | the feed match computes exactly that |
| Build.RenderSite | src/command/build.rs:131-133 | the three renderers produce the tag pages and the two indexes of the site, or the error of the first write that fails |
| Build.Run | src/command/build.rs:97-135 | the walk, the feed, then the three renderers, stopping at the first error; the Atom feed creates `gemlog` and fails when `gemlog/atom.xml` is a directory |
| Build.RunFails | src/command/build.rs:97-135 | a build fails exactly when the walk fails, or an Atom feed is wanted and there are no posts, the domain is invalid or the walk rendered into a directory `gemlog/atom.xml`, or (as written) a tag is `..`, or the walk rendered into a directory at some tag's page path or at `tags/index.gmi`, or there is no tag and nothing created `tags`, or there is a gemlog index but no Atom feed and nothing created `gemlog` |
| Build.RenderedSiteFails | src/command/build.rs:268-402 | after the feed, a build fails exactly when (as written) a tag is `..`, or a tag's page path or `tags/index.gmi` is a directory, or (as written) there is no tag and `tags` does not exist, or there is a gemlog index and `gemlog` does not exist; the home index always finds the output directory |
| Build.CorrectedRunFails | src/command/build.rs:97-135 | corrected, a build fails exactly when some document fails on its own, or an Atom feed is wanted and there are no posts, the domain is invalid or `gemlog/atom.xml` is a directory the walk rendered into, or `tags/<tag>.gmi` of some tag or `tags/index.gmi` is such a directory |
| Build.AboutWalk | src/command/build.rs:149-196 | the walk of one published top-level page succeeds, creates only the output directory, has no posts, knows a tag exactly when the page names one, and knows only the page's tags |
| Build.TaglessCapsuleFails | src/command/build.rs:268-323 | one published page without tags and no feed: as written the build aborts writing `tags/index.gmi` into the missing `tags`; corrected it succeeds |
| Build.EmptyGemlogFails | src/command/build.rs:365-402 | one tagged page, a gemlog index, no posts and no feed: as written the build aborts writing `gemlog/index.gmi` into the missing `gemlog`; corrected it succeeds |
| Build.AboutCorrected | src/command/build.rs:97-135 | corrected, one published top-level page and no feed always build |
| Build.CorrectedBareWalkBuilds | src/command/build.rs:97-135 | corrected, with no feed, a walk that created only the output directory leads to a successful build |
| Build.NestedPageIsProcessed | src/command/build.rs:161-184 | `tags/foo.gmi/bar.gmi` is a published document rendered into `tags/foo.gmi` |
| Build.NestedStep | src/command/build.rs:149-196 | the walk over that one document is its processing |
| Build.NestedWalk | src/content/mod.rs:249-253 | rendering it creates the directory `tags/foo.gmi`, and its tag `foo` is the first tag |
| Build.FooTagPage | src/command/build.rs:276-281 | the page of the tag `foo` is `tags/foo.gmi` in either revision |
| Build.TagPageOntoRenderedDirectory | src/command/build.rs:303 | a capsule of `tags/foo.gmi/bar.gmi` tagged `foo`: the page of `foo` is written onto the directory the walk created, so the build fails with that path, in either revision |
| Build.GeminiFeedWritesNothing | src/command/build.rs:119-120 | with the `Gemini` setting no feed is written |
| Build.BothFeedIsAtom | src/command/build.rs:121-128 | `Both` fails exactly when `Atom` does; no Gemini feed is written |
| Build.StepIgnoresFeed | src/command/build.rs:163-181 | linking, rendering and filing one document do not depend on the feed setting |
| Build.ProcessIgnoresFeed | src/command/build.rs:165-181 | linking, tagging, rendering and filing one published document give the same result under every feed setting |
| Build.LinkIgnoresFeed | src/command/build.rs:167 | a document's link does not depend on the feed setting, in either revision |
| Build.RenderedIgnoresFeed | src/command/build.rs:175-180 | a document's rendered text and the capsule address it uses do not depend on the feed setting |
| Build.WalkIgnoresFeed | src/command/build.rs:137-198 | the walk does not depend on the feed setting |
| Build.RunSiteShape | src/command/build.rs:110-133 | a successful build has one tag page per known tag, an Atom feed iff one is wanted, and each index iff its source page reads |

## Left out

- I/O is not modelled apart from the directories of the output. Reading files, canonicalising paths and the bytes of copied files are left out. Reads are inputs, and writes are (path, text) results.
- Build.RunFails: holds apart from I/O errors that the model does not have: `current_dir` or `canonicalize` failing (build.rs:141-143, 152), `strip_prefix` failing for an entry whose canonical path leaves `content`, such as a symbolic link pointing outside it (build.rs:153), permissions, or a full disk. Entries that `WalkDir` cannot read are skipped by the source (build.rs:150) and are absent from the model's entries.
- Build.RunFails: a write onto a directory is modelled; a directory needed where the walk left a file is not, since the model tracks directories only. A copied file `content/tags` or `content/gemlog` makes the source's tag pages, tag index, Atom feed or gemlog index fail, as the write goes below a file, while the model builds. The walk's own writes cannot meet either case, since a content path is a file or a directory but not both, and `index.gmi` and `gemlog/index.gmi` are written only when their source reads as a page, which a directory does not.
- Build.RenderedSiteFails: likewise leaves out a write below a file the walk copied.
- Build.CorrectedRunFails: likewise leaves out a write below a file the walk copied.
- BuildItems.StepFails: likewise holds apart from the I/O errors listed for Build.RunFails.
- BuildItems.WalkFails: likewise holds apart from the I/O errors listed for Build.RunFails.
- The current directory is a parameter, and so are the walk's entries. Each entry is a relative path, whether it is a regular file, and what `Page::from_path` gives for it. `WalkDir`'s traversal order is the order of that sequence.
- In `run`, the output directory is a parameter. Joining `public` or the `--output` option with `cfg.path` is not modelled.
- The clock is a parameter. `Time::now` and `Utc::now().date().year()` are the values passed in.
- `Config::load` and `Config::save` are not modelled. They read and write TOML through the file system, and the configuration is a plain value here.
- The RON encoder and decoder are a `Codec` value. Their round-trip law, and the absence of a `---` line in an encoding, are hypotheses of the round-trip lemmas.
- The frontmatter extractor is modelled as splitting at the first line that is exactly `---`.
- The `url` crate is reduced to a host and a path. A domain parses when it is non-empty and holds no URL delimiter, and `set_path` prefixes `/` to a relative path. This is stricter than the crate: for the non-special `gemini` scheme it accepts an empty host (`Url::parse("gemini://")` succeeds) and user info (`user@host`), which the model rejects. Other URL syntax, such as ports and percent-encoding, is not modelled.
- Times.ParseRfc3339: chrono's parser is modelled for the text `to_rfc_3339` can produce: digits, `-`, `T`, `:` and `Z`. Lower-case `t` and `z`, a space separator, fractional seconds and numeric offsets are accepted by chrono and not modelled, since the source never writes them.
- `date_string` and `year` on `Time` are not part of this model's source files. `DateString` is written here as zero-padded `Y-M-D`. `Year` is the year field. No property depends on the date string's content.
- Content.SlugShape: lower-casing covers ASCII, Latin-1, Latin Extended-A, Greek and the basic Cyrillic capitals. Other scripts are kept as they are, `İ` is not expanded to `i̇`, and the final-sigma rule for `Σ` is not applied, unlike Rust's `to_lowercase`.
- Content.GetPath: the file name is the slug, so it shares the lower-casing limits of Content.SlugShape.
- Paths are sequences of components, and components are assumed to hold no `/`. A tag that holds `/` is therefore not modelled as `PathBuf` would treat it. The tags `.`, `..` and the empty tag are modelled as `push` and `set_extension` treat them.
- `HashMap` iteration order is not modelled. The order in which tags were first inserted stands in for it, and a `HashMap` of pages is a map.
- `crate::footer` is called by `Page::render` but is not part of this model's source files. It is taken to write what `write_footer` writes.
- `write_footer` reads the global configuration. Here the configuration is passed in, and `gettext` is the identity.
- `Page::render` takes the banner as an argument, but the build's call passes only three arguments, so the two files come from different revisions. The walk renders with no banner.
- `display_date` is read by no modelled code.
- Atom XML is not modelled. The entry conversion `Meta::atom` and its errors, `atom.to_disk`, the XML pretty-printing and `xmllint` are all left out. The feed is the record of the fields `Capsule::atom` sets.
- `Capsule::gemfeed` is modelled, but `run` never calls it. Its links point at the source path `content/gemlog/<slug>`, not at the rendered page.
- `tinylog::create_post` and `tinylog::edit` are not modelled. They call an editor and format a post from the log. The tinylog body format, which is parsing the log and inserting an entry, is a `LogFormat` parameter.
- `Page::edit` is not modelled, because it launches an external editor.
- `GetPath for Feed` is duplicated in src/traits/mod.rs:68-75. It is modelled once, as `Lib.FeedGetPath`.
- BuildRender.AtomSpec: the source panics on `unwrap` when there are no posts. The model returns `Err(EmptyFeed)` instead.
- Content.Categories: for the tag `..` the category's path is `…/tags/..`; the `url` crate's `set_path` removes that dot segment (giving `…/`), which the model does not.
- Content.Categories: the category URL keeps `set_extension`, as written. In the corrected revision, a dotted tag's category still names `tags/v1.gmi` while the page is `tags/v1.2.gmi`. The Atom model does not render categories.
- Integer widths are not modelled. `i64` timestamps, `i32` years and `usize` depths are unbounded integers, so overflow is not modelled.

## Findings

| source | as written | input that shows it | evidently intended | confidence | as-written member | corrected member |
|---|---|---|---|---|---|---|
| src/command/build.rs:45-56 | the build's own `Link::get` sets the URL path to the whole canonical source path | a post at `/srv/content/gemlog/a.gmi` with domain `example.org` is linked as `gemini://example.org/srv/content/gemlog/a.gmi` | the path relative to `content`, as `Link::get` in src/link.rs:21-35 does: `gemini://example.org/gemlog/a.gmi` | not executed | BuildItems.GetAsWritten, BuildItems.GetAsWrittenLeaksFileSystemPath | LinkResolver.Get, LinkResolver.GetOfContentPath, used through BuildItems.LinkFor by the `Corrected` walk |
| src/content/time.rs:48-58 | `to_rfc_3339` writes every field unpadded, but chrono's RFC 3339 reader takes exactly four year digits and two digits per other field | a post published at 2024-01-01 00:00:00 is written `2024-1-1T0:0:0Z`, which has no timestamp, so `zond build` aborts | the year zero-padded to four digits and the other fields to two: `2024-01-01T00:00:00Z` | not executed | Times.Timestamp, Times.UnpaddedTimeIsRejected, BuildItems.PaddingDecidesTheWalk | Times.PaddedTimestamp, Times.PaddedTimestampOrder, used through BuildItems.StampFor by the `Corrected` walk |
| src/command/build.rs:274-281 | the tag index links `<tag>.gmi`, but the page is saved at `tags/<tag>` with its extension set to `gmi` | the tag `v1.2`: the index links `v1.2.gmi`, and the page is saved as `tags/v1.gmi` | the page saved as `tags/<tag>.gmi`, the name the index and every page's tag links use | not executed | BuildRender.DottedTagPage | BuildRender.CorrectedTagPageIsLinked, BuildRender.CorrectedTagLineReachesPage, used through BuildRender.TagPageDest by the `Corrected` build |
| src/command/build.rs:186-193 | a file that is not a document is copied with `fs::copy`, which does not create the destination's directory; `run` removed the whole output directory before the walk (build.rs:107-109), and only `Page::render` creates directories | `content/images/logo.png` walked before any document under `images/`: the copy fails and `zond build` aborts | the directory created before the copy, as `Page::render` does | not executed | BuildItems.StepFails, BuildItems.CopyBeforeItsDirectory | BuildItems.CorrectedWalkFails, BuildItems.CopyBeforeItsDirectory, through the corrected branch of BuildItems.WriteInto |
| src/command/build.rs:268-323 | `render_tags` creates `tags/` only inside the loop over the tags, then writes `tags/index.gmi` in any case | a capsule of one published page without tags and no feed: writing the tag index fails, so the home index and the gemlog index are never written | `tags/` created before the loop | not executed | Build.RunFails, Build.TaglessCapsuleFails | Build.CorrectedRunFails, Build.TaglessCapsuleFails, through the corrected branch of BuildRender.TagDirs |
| src/command/build.rs:365-402 | `render_gemlog_index` writes `gemlog/index.gmi` without creating `gemlog/`, which only a rendered post or the Atom feed creates | a capsule with `content/gemlog/index.gmi` and a tagged page, but no published post and no Atom feed: writing the gemlog index fails | `gemlog/` created before the write | not executed | Build.RunFails, Build.EmptyGemlogFails | Build.CorrectedRunFails, Build.EmptyGemlogFails |
