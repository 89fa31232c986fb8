/** The tinylog page (src/tinylog.rs): a single page at
    `content/tinylog.gmi` whose tags can be extended and to which dated
    entries are added. */
module Tinylog {
  import opened Wrappers
  import opened Paths
  import opened Times
  import opened Content

  /** `content/tinylog.gmi`. */
  const TinylogPath: Path := ["content", "tinylog.gmi"]

  // ---- Merging tags ----

  /** Each requested tag in turn is appended unless already present. */
  function Merged(existing: seq<string>, requested: seq<string>): seq<string>
    decreases |requested|
  {
    if |requested| == 0 then existing
    else Merged(if requested[0] in existing then existing else existing + [requested[0]], requested[1..])
  }

  /** The loop of `tags` and `update`: appends a requested tag only if the
      tags do not already contain it. */
  method MergeTags(existing: seq<string>, requested: seq<string>) returns (r: seq<string>)
    ensures r == Merged(existing, requested)
  {
    r := existing;
    var i := 0;
    while i < |requested|
      invariant 0 <= i <= |requested|
      invariant Merged(r, requested[i..]) == Merged(existing, requested)
    {
      var t := requested[i];
      if t !in r {
        r := r + [t];
      }
      assert requested[i..][1..] == requested[i + 1..];
      i := i + 1;
    }
  }

  predicate NoDuplicates(s: seq<string>) {
    forall i, j :: 0 <= i < j < |s| ==> s[i] != s[j]
  }

  /** The requested tags not in `seen`, each once, in order of first request. */
  function Fresh(seen: seq<string>, requested: seq<string>): seq<string>
    decreases |requested|
  {
    if |requested| == 0 then []
    else if requested[0] in seen then Fresh(seen, requested[1..])
    else [requested[0]] + Fresh(seen + [requested[0]], requested[1..])
  }

  /** Existing tags keep their places; the new ones follow in request order. */
  lemma {:induction false} MergedIsExistingThenFresh(existing: seq<string>, requested: seq<string>)
    ensures Merged(existing, requested) == existing + Fresh(existing, requested)
    decreases |requested|
  {
    if |requested| > 0 {
      var t := requested[0];
      if t in existing {
        MergedIsExistingThenFresh(existing, requested[1..]);
      } else {
        MergedIsExistingThenFresh(existing + [t], requested[1..]);
      }
    }
  }

  /** A tag is in the result exactly when it was there before or was
      requested. */
  lemma {:induction false} MergedMembers(existing: seq<string>, requested: seq<string>, t: string)
    ensures t in Merged(existing, requested) <==> t in existing || t in requested
    decreases |requested|
  {
    if |requested| > 0 {
      var next := if requested[0] in existing then existing else existing + [requested[0]];
      MergedMembers(next, requested[1..], t);
      assert t in requested <==> t == requested[0] || t in requested[1..];
    }
  }

  /** Merging introduces no duplicate. */
  lemma {:induction false} MergedNoDuplicates(existing: seq<string>, requested: seq<string>)
    requires NoDuplicates(existing)
    ensures NoDuplicates(Merged(existing, requested))
    decreases |requested|
  {
    if |requested| > 0 {
      var next := if requested[0] in existing then existing else existing + [requested[0]];
      MergedNoDuplicates(next, requested[1..]);
    }
  }

  /** Requesting only tags that are already there changes nothing. */
  lemma {:induction false} MergedPresent(existing: seq<string>, requested: seq<string>)
    requires forall t :: t in requested ==> t in existing
    ensures Merged(existing, requested) == existing
    decreases |requested|
  {
    if |requested| > 0 {
      assert requested[0] in requested;
      MergedPresent(existing, requested[1..]);
    }
  }

  /** Applying the same tag list twice is applying it once. */
  lemma MergedIdempotent(existing: seq<string>, requested: seq<string>)
    ensures Merged(Merged(existing, requested), requested) == Merged(existing, requested)
  {
    forall t | t in requested
      ensures t in Merged(existing, requested)
    {
      MergedMembers(existing, requested, t);
    }
    MergedPresent(Merged(existing, requested), requested);
  }

  // ---- The tinylog file ----

  /** `init(None, None, None)` when the file is missing: a draft titled
      "Tinylog" without summary or tags is created. `file` is the current
      file, `None` when it does not exist. */
  function EnsureFile(codec: Codec, file: Option<string>): (r: string)
    ensures file.Some? ==> r == file.value
    ensures file.None? ==> r == Create(codec, OrdinaryPage(Some(TinylogPath)), "Tinylog", None, []).1
  {
    match file
    case Some(f) => f
    case None => Create(codec, OrdinaryPage(Some(TinylogPath)), "Tinylog", None, []).1
  }

  /** `tags`: the tinylog page with the requested tags merged in, as the text
      written back; nothing is written when the page does not parse. */
  method Tags(codec: Codec, file: Option<string>, requested: seq<string>) returns (written: Option<string>)
    ensures var page := FromPath(codec, Some(EnsureFile(codec, file)));
      && (written.None? <==> page.None?)
      && (written.Some? ==> written.value == ToDisk(codec,
            page.value.(meta := page.value.meta.(tags := Merged(page.value.meta.tags, requested)))))
  {
    var text := EnsureFile(codec, file);
    var page := FromPath(codec, Some(text));
    if page.None? {
      return None;
    }
    var p := page.value;
    var tags := MergeTags(p.meta.tags, requested);
    return Some(ToDisk(codec, p.(meta := p.meta.(tags := tags))));
  }

  /** With a round-tripping codec a missing tinylog is created first, so the
      tags are always written then, and read back merged. */
  lemma TagsOnMissingFile(codec: Codec, requested: seq<string>)
    requires RoundTrips(codec)
    ensures var page := FromPath(codec, Some(EnsureFile(codec, None)));
      page.Some? && page.value.meta.tags == [] && page.value.meta.title == "Tinylog"
  {
    CreateReadsBack(codec, OrdinaryPage(Some(TinylogPath)), "Tinylog", None, []);
  }

  /** The tinylog body format, a foreign library: adding an entry with its
      time and text to a body, or failing when the body does not parse. */
  datatype LogFormat = LogFormat(insert: (string, Time, string) -> Option<string>)

  datatype UpdateError = LogParseError

  /** `update`: adds an entry dated `now` (the clock reading) to the log body,
      marks the page published at `now` and merges the requested tags;
      returns the text written back, `None` when the page does not parse. */
  method Update(codec: Codec, log: LogFormat, file: Option<string>, text: string,
                tags: Option<seq<string>>, now: Time)
    returns (r: Result<Option<string>, UpdateError>)
    ensures var page := FromPath(codec, Some(EnsureFile(codec, file)));
      && (r == Ok(None) <==> page.None?)
      && (r.Err? <==> page.Some? && log.insert(page.value.content, now, text).None?)
      && (r.Ok? && r.value.Some? ==>
            var meta := page.value.meta;
            var merged := match tags case Some(ts) => Merged(meta.tags, ts) case None => meta.tags;
            r.value.value == ToDisk(codec, Page(Meta(meta.title, meta.summary, Some(now), merged),
                                                log.insert(page.value.content, now, text).value)))
  {
    var current := EnsureFile(codec, file);
    var parsed := FromPath(codec, Some(current));
    if parsed.None? {
      return Ok(None);
    }
    var page := parsed.value;
    var body := log.insert(page.content, now, text);
    if body.None? {
      return Err(LogParseError);
    }
    page := page.(content := body.value);
    page := page.(meta := page.meta.(published := Some(now)));
    if tags.Some? {
      var merged := MergeTags(page.meta.tags, tags.value);
      page := page.(meta := page.meta.(tags := merged));
    }
    return Ok(Some(ToDisk(codec, page)));
  }

  /** After an update the page reads back published at the entry's time, with
      its old tags first and no tag added twice. */
  lemma UpdateReadsBack(codec: Codec, meta: Meta, body: string, now: Time, requested: seq<string>)
    requires RoundTrips(codec) && NoDuplicates(meta.tags)
    ensures var merged := Merged(meta.tags, requested);
      var back := FromPath(codec, Some(ToDisk(codec, Page(Meta(meta.title, meta.summary, Some(now), merged), body))));
      && back.Some?
      && back.value.meta.published == Some(now)
      && meta.tags <= back.value.meta.tags
      && NoDuplicates(back.value.meta.tags)
  {
    var merged := Merged(meta.tags, requested);
    FromPathToDisk(codec, Page(Meta(meta.title, meta.summary, Some(now), merged), body));
    MergedIsExistingThenFresh(meta.tags, requested);
    MergedNoDuplicates(meta.tags, requested);
  }
}
