/** Crate-level helpers (src/lib.rs): where the Atom feed is placed, and the
    footer written at the bottom of every page. */
module Lib {
  import opened Wrappers
  import opened Paths
  import Text
  import Licenses
  import Links
  import C = Config

  /** `impl GetPath for Feed`: `root/gemlog/atom.xml`, whatever the
      sub-directory. */
  function FeedGetPath(root: Path, subdir: Option<Path>): (r: Path)
    ensures r == root + ["gemlog", "atom.xml"]
  {
    Push(Push(root, ["gemlog"]), ["atom.xml"])
  }

  /** The sub-directory argument makes no difference. */
  lemma FeedGetPathIgnoresSubdir(root: Path, a: Option<Path>, b: Option<Path>)
    ensures FeedGetPath(root, a) == FeedGetPath(root, b)
  {
  }

  /** Lines joined into text, each followed by a line break (`writeln!`). */
  function LinesText(lines: seq<string>): string {
    if |lines| == 0 then "" else LinesText(lines[..|lines| - 1]) + lines[|lines| - 1] + "\n"
  }

  lemma LinesTextAppend(lines: seq<string>, line: string)
    ensures LinesText(lines + [line]) == LinesText(lines) + line + "\n"
  {
    assert (lines + [line])[..|lines|] == lines;
  }

  function LicenseLine(l: Licenses.License): string {
    "All content for this site is licensed as " + Licenses.Display(l) + "."
  }

  function CopyrightLine(year: int, name: string): string {
    "© " + Text.IntToString(year) + " by " + name
  }

  function MailLine(email: string): string {
    "=> mailto:" + email + " Contact"
  }

  function LinkLines(links: seq<Links.Link>): (r: seq<string>)
    ensures |r| == |links| && forall i :: 0 <= i < |links| ==> r[i] == Links.Display(links[i])
  {
    seq(|links|, i requires 0 <= i < |links| => Links.Display(links[i]))
  }

  /** The lines before the footer links: a blank line, the licence line when a
      licence is configured, and the copyright line. */
  function FooterHead(cfg: C.Config, year: int): seq<string> {
    [""]
    + (if cfg.license.Some? then [LicenseLine(cfg.license.value)] else [])
    + [CopyrightLine(year, cfg.author.name)]
  }

  /** The contact line, when the e-mail is to be shown and there is one. */
  function FooterTail(cfg: C.Config): seq<string> {
    if cfg.showEmail && cfg.author.email.Some? then [MailLine(cfg.author.email.value)] else []
  }

  function FooterLines(cfg: C.Config, year: int): seq<string> {
    FooterHead(cfg, year) + LinkLines(cfg.footerLinks) + FooterTail(cfg)
  }

  /** The footer: a blank line first, the licence line iff a licence is
      configured, the copyright line with the year given, the footer links one
      per line in configured order, and the `mailto:` line iff `show_email` is
      set and an e-mail is known. */
  lemma FooterShape(cfg: C.Config, year: int)
    ensures var lines := FooterLines(cfg, year);
      var k := if cfg.license.Some? then 1 else 0;
      var m := if cfg.showEmail && cfg.author.email.Some? then 1 else 0;
      && |lines| == 2 + k + |cfg.footerLinks| + m
      && lines[0] == ""
      && (cfg.license.Some? ==> lines[1] == LicenseLine(cfg.license.value))
      && lines[1 + k] == CopyrightLine(year, cfg.author.name)
      && (forall i :: 0 <= i < |cfg.footerLinks| ==> lines[2 + k + i] == Links.Display(cfg.footerLinks[i]))
      && (m == 1 ==> lines[|lines| - 1] == MailLine(cfg.author.email.value))
  {
  }

  /** A writer (`BufWriter<File>` in the source) that only ever grows. */
  class Writer {
    var text: string

    constructor ()
      ensures text == ""
    {
      text := "";
    }

    /** `writeln!(writer, "{}", line)`. */
    method WriteLine(line: string)
      modifies this
      ensures text == old(text) + line + "\n"
    {
      text := text + line + "\n";
    }
  }

  /** Writing one more line after `lines` is writing `lines + [line]`. */
  lemma WriteStep(start: string, lines: seq<string>, line: string)
    ensures start + LinesText(lines) + line + "\n" == start + LinesText(lines + [line])
  {
    LinesTextAppend(lines, line);
  }

  /** The blank line, licence line and copyright line of `write_footer`. */
  method WriteFooterHead(w: Writer, cfg: C.Config, year: int)
    modifies w
    ensures w.text == old(w.text) + LinesText(FooterHead(cfg, year))
  {
    ghost var start := w.text;
    w.WriteLine("");
    WriteStep(start, [], "");
    ghost var lines: seq<string> := [""];
    assert w.text == start + LinesText(lines);
    if cfg.license.Some? {
      WriteLicenseLine(w, start, lines, cfg.license.value);
      lines := lines + [LicenseLine(cfg.license.value)];
    }
    assert w.text == start + LinesText(lines);
    var copyright := CopyrightLine(year, cfg.author.name);
    w.WriteLine(copyright);
    WriteStep(start, lines, copyright);
    lines := lines + [copyright];
    assert lines == FooterHead(cfg, year);
  }

  method WriteLicenseLine(w: Writer, ghost start: string, ghost lines: seq<string>, l: Licenses.License)
    requires w.text == start + LinesText(lines)
    modifies w
    ensures w.text == start + LinesText(lines + [LicenseLine(l)])
  {
    var line := LicenseLine(l);
    w.WriteLine(line);
    WriteStep(start, lines, line);
  }

  /** `write_footer`: appends the footer lines to the writer. */
  method WriteFooter(w: Writer, cfg: C.Config, year: int)
    modifies w
    ensures w.text == old(w.text) + LinesText(FooterLines(cfg, year))
  {
    ghost var start := w.text;
    WriteFooterHead(w, cfg, year);
    WriteLinkLines(w, start, FooterHead(cfg, year), cfg.footerLinks);
    ghost var lines := FooterHead(cfg, year) + LinkLines(cfg.footerLinks);
    if cfg.showEmail && cfg.author.email.Some? {
      var line := MailLine(cfg.author.email.value);
      w.WriteLine(line);
      WriteStep(start, lines, line);
      assert FooterTail(cfg) == [line];
    } else {
      assert lines + FooterTail(cfg) == lines;
    }
    assert FooterLines(cfg, year) == lines + FooterTail(cfg);
  }

  /** The footer links, one line each, in configured order. */
  method WriteLinkLines(w: Writer, ghost start: string, ghost lines: seq<string>, links: seq<Links.Link>)
    requires w.text == start + LinesText(lines)
    modifies w
    ensures w.text == start + LinesText(lines + LinkLines(links))
  {
    var i := 0;
    assert LinkLines(links[..0]) == [];
    assert lines + LinkLines(links[..0]) == lines;
    while i < |links|
      invariant 0 <= i <= |links|
      invariant w.text == start + LinesText(lines + LinkLines(links[..i]))
    {
      var line := Links.Display(links[i]);
      w.WriteLine(line);
      WriteStep(start, lines + LinkLines(links[..i]), line);
      LinkLinesStep(links, i);
      assert lines + LinkLines(links[..i]) + [line] == lines + LinkLines(links[..i + 1]);
      i := i + 1;
    }
    assert links[..i] == links;
  }

  lemma LinkLinesStep(links: seq<Links.Link>, i: nat)
    requires i < |links|
    ensures LinkLines(links[..i + 1]) == LinkLines(links[..i]) + [Links.Display(links[i])]
  {
  }

  /** The footer text on its own, as written to an empty writer. */
  function FooterText(cfg: C.Config, year: int): string {
    LinesText(FooterLines(cfg, year))
  }

  /** The footer text begins with a line break: the blank line. */
  lemma {:induction false} FooterTextStartsBlank(cfg: C.Config, year: int)
    ensures |FooterText(cfg, year)| > 0 && FooterText(cfg, year)[0] == '\n'
  {
    var lines := FooterLines(cfg, year);
    LinesTextPrefix(lines, 1);
    assert lines[..1] == [""];
    assert LinesText([""]) == LinesText([]) + "" + "\n";
  }

  lemma {:induction false} LinesTextPrefix(lines: seq<string>, n: nat)
    requires n <= |lines|
    ensures |LinesText(lines[..n])| <= |LinesText(lines)|
    ensures LinesText(lines)[..|LinesText(lines[..n])|] == LinesText(lines[..n])
    decreases |lines| - n
  {
    if n < |lines| {
      LinesTextPrefix(lines, n + 1);
      assert lines[..n + 1][..n] == lines[..n];
      assert LinesText(lines[..n + 1]) == LinesText(lines[..n]) + lines[n] + "\n";
    } else {
      assert lines[..n] == lines;
    }
  }
  /** The files written so far, by path. */
  class Disk {
    var files: map<Path, string>

    constructor ()
      ensures files == map[]
    {
      files := map[];
    }

    /** `fs::write`: the file at `path` now holds `text`; no other file
        changes. */
    method Write(path: Path, text: string)
      modifies this
      ensures files == old(files)[path := text]
    {
      files := files[path := text];
    }
  }
}
