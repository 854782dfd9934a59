/**
 * The group keys of fss: `get_ext`, `get_filename`, `get_parent_directory`
 * and the key the receiver files a counted entry under in each `GroupBy`
 * mode.
 */
module GroupKeys {
  import opened Wrappers
  import opened Ascii
  import opened Paths
  import opened Groups
  import Cli

  /**
   * `get_ext`: the extension, lower-cased, or "" when the path has none. The
   * key has no upper-case letter, has the extension's length, and is "" exactly
   * when the path has no extension or an empty one (a name ending in a dot).
   */
  function GetExt(p: Path): (r: string)
    ensures IsLowercase(r)
    ensures r == "" <==> Extension(p).None? || Extension(p) == Some("")
    ensures Extension(p).Some? ==> |r| == |Extension(p).value|
  {
    var e := Extension(p).GetOr("");
    ToLowercaseIsLowercase(e);
    ToLowercase(e)
  }

  /**
   * `get_filename`: the last component when it is a name, else "". A
   * non-empty key is the last name of the path, and "" comes from a path
   * that does not end in a name (or ends in an empty one).
   */
  function GetFilename(p: Path): (r: string)
    ensures r != "" ==> |p| > 0 && p == Join(p[..|p| - 1], r)
    ensures r == "" <==> FileName(p).None? || FileName(p) == Some("")
  {
    FileName(p).GetOr("")
  }

  /**
   * `get_parent_directory`: the name of the parent's last component; "" when
   * either is missing. So the key is the next-to-last component whenever that
   * is a name and the path does not end in the root, and "" otherwise.
   */
  function GetParentDirectory(p: Path): (r: string)
    ensures |p| >= 2 && !p[|p| - 1].RootDir? && p[|p| - 2].Normal? ==> r == p[|p| - 2].name
    ensures r != "" ==> |p| >= 2 && !p[|p| - 1].RootDir? && p[|p| - 2] == Normal(r)
  {
    match Parent(p)
    case None => ""
    case Some(q) => FileName(q).GetOr("")
  }

  /**
   * The key of the size map that an entry at `p` is added to: in Type mode
   * one of the category names, in Extension mode a key without upper-case
   * letters, in FileName mode the last name or "", and in Directory mode the
   * name of the parent directory or "".
   */
  function GroupKey(g: Cli.GroupBy, p: Path): (r: string)
    ensures g == Cli.Type ==> exists t :: r == DisplayName(t)
    ensures g == Cli.Extension ==> IsLowercase(r)
    ensures g == Cli.FileName && r != "" ==> FileName(p) == Some(r)
    ensures g == Cli.Directory && r != "" ==> |p| >= 2 && p[|p| - 2] == Normal(r)
  {
    match g
    case Type => DisplayName(GetFiletype(GetExt(p)))
    case Extension => GetExt(p)
    case FileName => GetFilename(p)
    case Directory => GetParentDirectory(p)
  }

  // ---------------------------------------------------------------------------
  // get_ext

  /** Names that differ only in the case of their letters have the same extension key. */
  lemma GetExtCaseInsensitive(dir: Path, a: string, b: string)
    requires ToLowercase(a) == ToLowercase(b)
    ensures GetExt(Join(dir, a)) == GetExt(Join(dir, b))
  {
    ExtensionCaseInsensitive(dir, a, b);
  }

  /**
   * The extension is what follows the last dot, lower-cased; a name with
   * no dot, a dot-file and ".." have none.
   */
  lemma GetExtExamples(dir: Path, name: string)
    ensures name == "a.TXT" ==> GetExt(Join(dir, name)) == "txt"
    ensures name == "x.tar.gz" ==> GetExt(Join(dir, name)) == "gz"
    ensures name == "Makefile" ==> GetExt(Join(dir, name)) == ""
    ensures name == ".bashrc" ==> GetExt(Join(dir, name)) == ""
    ensures name == ".." ==> GetExt(Join(dir, name)) == ""
    ensures name == "a." ==> GetExt(Join(dir, name)) == ""
  {
    if name == "a.TXT" {
      assert name[1] == '.';
      assert LastDot(name) == Some(1);
      assert ToLowercase("TXT") == "txt";
    } else if name == "x.tar.gz" {
      assert name[5] == '.';
      assert LastDot(name) == Some(5);
      assert ToLowercase("gz") == "gz";
    } else if name == "Makefile" {
      assert LastDot(name) == None;
    } else if name == ".bashrc" {
      assert name[0] == '.';
      assert LastDot(name) == Some(0);
    } else if name == "a." {
      assert name[1] == '.';
      assert LastDot(name) == Some(1);
      assert name[2..] == "";
    }
  }

  // ---------------------------------------------------------------------------
  // get_filename and get_parent_directory

  /** The file-name key of a listed entry is its name; a path that ends in no name gives "". */
  lemma GetFilenameOfJoin(dir: Path, name: string)
    ensures GetFilename(Join(dir, name)) == name
    ensures GetFilename(dir + [RootDir]) == "" && GetFilename(dir + [ParentDir]) == "" && GetFilename([]) == ""
  {
  }

  /**
   * The directory key of an entry is the name of the directory that lists
   * it; an entry given directly under the root, under ".", or as a bare
   * relative name gives "".
   */
  lemma GetParentDirectoryOfJoin(dir: Path, d: string, name: string)
    ensures GetParentDirectory(Join(Join(dir, d), name)) == d
    ensures GetParentDirectory([RootDir, Normal(name)]) == ""
    ensures GetParentDirectory([CurDir, Normal(name)]) == ""
    ensures GetParentDirectory([Normal(name)]) == ""
    ensures GetParentDirectory([RootDir]) == "" && GetParentDirectory([]) == ""
  {
    assert [RootDir, Normal(name)] == Join([RootDir], name);
    assert [CurDir, Normal(name)] == Join([CurDir], name);
    assert [Normal(name)] == Join([], name);
  }

  // ---------------------------------------------------------------------------
  // The key per mode

  /**
   * In Type mode the key is the display name of the extension's category,
   * and a path without an extension is filed under "Other".
   */
  lemma TypeKeyOfExtension(p: Path)
    ensures Extension(p).None? ==> GroupKey(Cli.Type, p) == "Other"
  {
    GetFiletypeUnknownKeys();
  }

  /**
   * Type mode looks at the extension only, never at a dot-less name as
   * `from_path` does: a file named "PY" is `Code` for `from_path` but is
   * filed under "Other".
   */
  lemma TypeKeyIgnoresDotlessName(p: Path)
    ensures p == [Normal("PY")] ==> FromPath(p) == Code && GroupKey(Cli.Type, p) == "Other"
  {
    if p == [Normal("PY")] {
      FromPathOfDotlessName(p);
      assert LastDot("PY") == None;
      TypeKeyOfExtension(p);
    }
  }

  /** Every mode's key of a listed entry depends only on the listing directory and the entry's name. */
  lemma GroupKeyOfJoin(g: Cli.GroupBy, dir: Path, d: string, name: string)
    ensures g == Cli.Extension ==> GroupKey(g, Join(Join(dir, d), name)) == GetExt(Join([], name))
    ensures g == Cli.FileName ==> GroupKey(g, Join(Join(dir, d), name)) == name
    ensures g == Cli.Directory ==> GroupKey(g, Join(Join(dir, d), name)) == d
    ensures g == Cli.Type ==> GroupKey(g, Join(Join(dir, d), name)) == DisplayName(GetFiletype(GetExt(Join([], name))))
  {
    GetParentDirectoryOfJoin(dir, d, name);
  }
}
