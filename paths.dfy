/** File-system paths as Rust's `Path`/`PathBuf` treat them: a sequence of
    components. An absolute path begins with the empty component that stands
    for the root, so `["", "home", "u"]` is `/home/u`. Components are assumed
    to hold no `/`. */
module Paths {
  import opened Wrappers

  type Path = seq<string>

  predicate IsAbsolute(p: Path) {
    |p| > 0 && p[0] == ""
  }

  /** `PathBuf::push`: a relative path is appended, an absolute one replaces. */
  function Push(base: Path, p: Path): (r: Path)
    ensures IsAbsolute(p) ==> r == p
    ensures !IsAbsolute(p) ==> r == base + p
  {
    if IsAbsolute(p) then p else base + p
  }

  /** `Path::starts_with`, component by component. */
  predicate StartsWith(p: Path, prefix: Path) {
    |prefix| <= |p| && p[..|prefix|] == prefix
  }

  /** `Path::strip_prefix`: the remainder, or an error when `prefix` is not a
      prefix of `p`. */
  function StripPrefix(p: Path, prefix: Path): (r: Option<Path>)
    ensures r.Some? <==> StartsWith(p, prefix)
    ensures r.Some? ==> prefix + r.value == p
  {
    if StartsWith(p, prefix) then Some(p[|prefix|..]) else None
  }

  lemma StripPrefixOfJoin(prefix: Path, rel: Path)
    ensures StripPrefix(prefix + rel, prefix) == Some(rel)
  {
    assert (prefix + rel)[..|prefix|] == prefix;
    assert (prefix + rel)[|prefix|..] == rel;
  }

  function Join(p: Path): string {
    if |p| == 0 then "" else if |p| == 1 then p[0] else Join(p[..|p| - 1]) + "/" + p[|p| - 1]
  }

  /** `to_string_lossy`: components joined by `/`; the root alone is `/`. */
  function ToString(p: Path): string {
    if p == [""] then "/" else Join(p)
  }

  /** `Path::parent`: everything but the last component; the root and the
      empty path have none. */
  function Parent(p: Path): (r: Option<Path>)
    ensures r.Some? ==> |r.value| + 1 == |p| && r.value == p[..|p| - 1]
  {
    if |p| == 0 || p == [""] then None else Some(p[..|p| - 1])
  }

  /** The directories that exist once `create_dir_all(d)` has run: `d` and
      every directory above it. */
  function Ancestors(d: Path): (r: set<Path>)
    ensures forall q :: q in r <==> StartsWith(d, q)
  {
    var r := set k | 0 <= k <= |d| :: d[..k];
    assert forall q :: StartsWith(d, q) ==> d[..|q|] in r;
    r
  }

  /** Only the root is at or above the root. */
  lemma AncestorsOfRoot()
    ensures Ancestors([]) == {[]}
  {
    assert StartsWith([], []);
  }

  /** A one-component directory has itself and the root above it. */
  lemma AncestorsOfName(c: string)
    ensures Ancestors([c]) == {[], [c]}
  {
    forall q | q in Ancestors([c]) ensures q == [] || q == [c] {
      if |q| == 1 {
        assert q == [c][..1];
      }
    }
    assert StartsWith([c], []) && StartsWith([c], [c]);
  }

  /** `Path::file_name`: the last component, unless it is the root or `..`. */
  function FileName(p: Path): (r: Option<string>)
    ensures r.Some? ==> |p| > 0 && r.value == p[|p| - 1]
  {
    if |p| == 0 || p[|p| - 1] == "" || p[|p| - 1] == ".." then None else Some(p[|p| - 1])
  }

  /** Index of the last `.` in a file name, if any. */
  function LastDot(name: string): (r: Option<nat>)
    ensures r.Some? ==> r.value < |name| && name[r.value] == '.'
    ensures r.Some? ==> forall i :: r.value < i < |name| ==> name[i] != '.'
    ensures r.None? ==> forall i :: 0 <= i < |name| ==> name[i] != '.'
  {
    if |name| == 0 then None
    else if name[|name| - 1] == '.' then Some(|name| - 1)
    else LastDot(name[..|name| - 1])
  }

  /** `Path::extension` of a file name: what follows the last `.`, unless that
      `.` is the name's first character (a hidden file) or the name is `..`. */
  function Extension(name: string): (r: Option<string>)
    ensures r.Some? ==> exists k :: 0 < k < |name| && name[k] == '.' && r.value == name[k + 1..]
  {
    if name == ".." then None
    else match LastDot(name)
      case Some(k) => if k == 0 then None else Some(name[k + 1..])
      case None => None
  }

  /** `Path::set_extension` on a file name (never `.` or `..`, which
      `Path::file_name` does not return): the old extension, if any, is
      replaced; otherwise the new one is added. */
  function SetExtension(name: string, ext: string): (r: string)
    ensures |r| > |ext| && r[|r| - |ext| - 1..] == "." + ext
  {
    match LastDot(name)
    case Some(k) => if k == 0 then name + "." + ext else name[..k] + "." + ext
    case None => name + "." + ext
  }

  /** `dir.push(name)` and then `set_extension(ext)`, for a `name` of one
      component. `Path::components` skips a `.` or an empty component at the
      end, so for those the extension goes on the component before them;
      `..` is not a file name, so `set_extension` leaves the path as pushed. */
  function PushWithExtension(dir: Path, name: string, ext: string): Path {
    if name == ".." then dir + [name]
    else if name == "." || name == "" then
      (if FileName(dir).Some? then dir[..|dir| - 1] + [SetExtension(dir[|dir| - 1], ext)] else dir + [name])
    else dir + [SetExtension(name, ext)]
  }

  /** Below a named directory, only `..` leaves a path whose last component
      is `..`: any other name ends the path in a file name carrying `ext`. */
  lemma PushWithExtensionLast(dir: Path, name: string, ext: string)
    requires FileName(dir).Some? && |ext| > 0 && ext[|ext| - 1] != '.'
    ensures var r := PushWithExtension(dir, name, ext);
      |r| > 0 && (r[|r| - 1] == ".." <==> name == "..")
  {
    var r := PushWithExtension(dir, name, ext);
    if name != ".." {
      var last := r[|r| - 1];
      assert last[|last| - 1] == ext[|ext| - 1];
    }
  }

  /** `PathBuf::push` on the textual form of a path: an absolute `p`
      replaces `base`; otherwise `p` is appended after a `/` unless `base` is
      empty or already ends in one. */
  function PushStr(base: string, p: string): (r: string)
    ensures |p| > 0 && p[0] == '/' ==> r == p
    ensures !(|p| > 0 && p[0] == '/') && base != "" && base[|base| - 1] != '/' ==> r == base + "/" + p
    ensures !(|p| > 0 && p[0] == '/') && (base == "" || base[|base| - 1] == '/') ==> r == base + p
  {
    if |p| > 0 && p[0] == '/' then p
    else if base == "" || base[|base| - 1] == '/' then base + p
    else base + "/" + p
  }
}
