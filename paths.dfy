/**
 * The part of Rust's `std::path` the size walker relies on. A path is taken
 * already split into the components `Path::components` yields (splitting a raw
 * path string is not modelled); `file_name`, `extension`, `parent` and `join`
 * are then defined on that sequence as the standard library defines them.
 */
module Paths {
  import opened Wrappers
  import opened Ascii

  datatype Component = RootDir | CurDir | ParentDir | Normal(name: string)

  type Path = seq<Component>

  /** `Path::file_name`: the last component when it is a normal name. */
  function FileName(p: Path): (r: Option<string>)
    ensures r.Some? <==> |p| > 0 && p[|p| - 1].Normal?
    ensures r.Some? ==> r.value == p[|p| - 1].name
  {
    if |p| > 0 && p[|p| - 1].Normal? then Some(p[|p| - 1].name) else None
  }

  /** `Path::parent`: the path without its last component; none for an empty path or one that ends in the root. */
  function Parent(p: Path): (r: Option<Path>)
    ensures r.Some? <==> |p| > 0 && !p[|p| - 1].RootDir?
    ensures r.Some? ==> r.value + [p[|p| - 1]] == p
  {
    if |p| > 0 && !p[|p| - 1].RootDir? then Some(p[..|p| - 1]) else None
  }

  /** `Path::join` with a plain entry name, which is how `DirEntry::path` forms a child's path. */
  function Join(p: Path, name: string): (r: Path)
    ensures FileName(r) == Some(name)
    ensures Parent(r) == Some(p)
  {
    p + [Normal(name)]
  }

  /** Index of the last '.' in `s`, if there is one. */
  function LastDot(s: string): (r: Option<nat>)
    ensures r.Some? ==> r.value < |s| && s[r.value] == '.'
    ensures r.Some? ==> forall j :: r.value < j < |s| ==> s[j] != '.'
    ensures r.None? ==> forall j :: 0 <= j < |s| ==> s[j] != '.'
  {
    if s == [] then None
    else if s[|s| - 1] == '.' then Some(|s| - 1)
    else LastDot(s[..|s| - 1])
  }

  /**
   * The extension half of the standard library's split of a file name at its
   * last dot: none for "..", for a name without a dot, and for a name whose
   * only dot is its first character; otherwise everything after the last dot.
   */
  function NameExtension(name: string): (r: Option<string>)
    ensures r.None? <==>
      name == ".." || LastDot(name).None? || LastDot(name) == Some(0)
    ensures r.Some? ==>
      var i := |name| - |r.value| - 1;
      0 < i && name[i] == '.' && name[i + 1..] == r.value && '.' !in r.value
  {
    if name == ".." then None
    else match LastDot(name)
      case None => None
      case Some(i) => if i == 0 then None else Some(name[i + 1..])
  }

  /** `Path::extension`. */
  function Extension(p: Path): (r: Option<string>)
    ensures r.Some? ==> FileName(p).Some? && NameExtension(FileName(p).value) == r
    ensures FileName(p).None? ==> r.None?
  {
    match FileName(p)
    case None => None
    case Some(name) => NameExtension(name)
  }

  /** Lower-casing leaves every '.' where it was, so the last dot does not move. */
  lemma {:induction false} LastDotOfLowercase(s: string)
    ensures LastDot(ToLowercase(s)) == LastDot(s)
  {
    if s != [] {
      var n := |s| - 1;
      ToLowercaseSlice(s, 0, n);
      assert ToLowercase(s)[..n] == ToLowercase(s[..n]);
      assert ToLowercase(s)[n] == '.' <==> s[n] == '.';
      LastDotOfLowercase(s[..n]);
    }
  }

  /** Only ".." lower-cases to "..", since no letter lower-cases to a dot. */
  lemma LowercaseDotDot(s: string)
    ensures ToLowercase(s) == ".." <==> s == ".."
  {
    if ToLowercase(s) == ".." {
      assert |s| == 2 && LowerChar(s[0]) == '.' && LowerChar(s[1]) == '.';
    }
  }

  /** The extension of a lower-cased name is the lower-cased extension of the name. */
  lemma NameExtensionOfLowercase(name: string)
    ensures NameExtension(ToLowercase(name)).Some? <==> NameExtension(name).Some?
    ensures NameExtension(name).Some? ==>
      NameExtension(ToLowercase(name)).value == ToLowercase(NameExtension(name).value)
  {
    LastDotOfLowercase(name);
    LowercaseDotDot(name);
    if NameExtension(name).Some? {
      var i := LastDot(name).value;
      ToLowercaseSlice(name, i + 1, |name|);
    }
  }

  /**
   * Two names that differ only in the case of ASCII letters have extensions
   * that differ only in case: both have one or neither has.
   */
  lemma ExtensionCaseInsensitive(dir: Path, a: string, b: string)
    requires ToLowercase(a) == ToLowercase(b)
    ensures Extension(Join(dir, a)).Some? <==> Extension(Join(dir, b)).Some?
    ensures ToLowercase(Extension(Join(dir, a)).GetOr("")) == ToLowercase(Extension(Join(dir, b)).GetOr(""))
  {
    NameExtensionOfLowercase(a);
    NameExtensionOfLowercase(b);
    match NameExtension(a)
    case None =>
    case Some(e) =>
      ToLowercaseIdempotent(e);
      ToLowercaseIdempotent(NameExtension(b).value);
  }
}
