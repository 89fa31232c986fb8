/** Index pages (src/content/index.rs): where an index page goes and how it is
    saved. */
module Index {
  import opened Wrappers
  import opened Paths
  import Lib

  /** The text of an index page. */
  datatype Index = Index(text: string)

  /** `Index::get_path`: `root`, then `subdir` when given, then `index.gmi`.
      As with `PathBuf::push`, an absolute `subdir` replaces `root`. */
  function GetPath(root: Path, subdir: Option<Path>): (r: Path)
    ensures subdir.None? ==> r == root + ["index.gmi"]
    ensures subdir.Some? && !IsAbsolute(subdir.value) ==> r == root + subdir.value + ["index.gmi"]
    ensures subdir.Some? && IsAbsolute(subdir.value) ==> r == subdir.value + ["index.gmi"]
  {
    var idx := match subdir
      case Some(p) => Push(root, p)
      case None => root;
    Push(idx, ["index.gmi"])
  }

  /** The result always ends in `index.gmi` and, unless an absolute
      sub-directory replaced it, begins with `root`. */
  lemma GetPathShape(root: Path, subdir: Option<Path>)
    ensures var r := GetPath(root, subdir);
      && |r| > 0 && r[|r| - 1] == "index.gmi"
      && (subdir.None? || !IsAbsolute(subdir.value) ==> StartsWith(r, root))
  {
    var r := GetPath(root, subdir);
    if subdir.None? {
      assert r[..|root|] == root;
    } else if !IsAbsolute(subdir.value) {
      assert r[..|root|] == root;
    }
  }

  /** `Index::to_disk`: the text is written verbatim at `path`, and nothing
      else changes. */
  method ToDisk(index: Index, path: Path, disk: Lib.Disk)
    modifies disk
    ensures disk.files == old(disk.files)[path := index.text]
    ensures path in disk.files && disk.files[path] == index.text
  {
    disk.Write(path, index.text);
  }
}
