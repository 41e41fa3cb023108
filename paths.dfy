/**
 * The path value of a `File` (src/file-utils.js:19-52, 324-374): what the
 * constructor decides about its argument, the parent rule, the absolute
 * path and `equals`. Node's `path` module is reduced to a `/`-joined model:
 * arguments are taken as already normalised, and `Join` only glues.
 */
module Paths {
  import opened Base

  /** `SLASH`, that is `PATH.normalize ("/")` on a POSIX platform. */
  const Sep: char := '/'

  /** `PATH.join (a, b)` on normalised arguments; an empty part is dropped. */
  function Join(a: string, b: string): string
  {
    if a == "" || a == "." then b
    else if b == "" then a
    else if a[|a| - 1] == Sep then a + b
    else a + [Sep] + b
  }

  /** `String.prototype.lastIndexOf` for one character: -1 when absent. */
  function LastIndexOf(s: string, c: char): (i: int)
    ensures -1 <= i < |s|
    ensures i >= 0 ==> s[i] == c
    ensures forall j :: i < j < |s| ==> s[j] != c
    ensures i == -1 <==> c !in s
  {
    if s == [] then -1
    else if s[|s| - 1] == c then |s| - 1
    else LastIndexOf(s[..|s| - 1], c)
  }

  /** The constructor's test: a leading separator or a drive marker `:` anywhere. */
  predicate LooksAbsolute(p: string)
  {
    (|p| > 0 && p[0] == Sep) || ':' in p
  }

  /** The immutable properties a `File` gets from its constructor. */
  datatype Address = Address(
    isAbsolute: bool,              // `_isAbsolute`
    relative: string,              // `_relative`: the entry module's directory, relative to the working directory
    path: Option<string>,          // `_path`
    relativePath: Option<string>)  // `_relativePath`: the string handed to the file system

  /** What every constructed `File` satisfies: `_path` and `_relativePath`
      are both set or both null. */
  predicate Consistent(a: Address)
  {
    a.path.None? <==> a.relativePath.None?
  }

  /** `!this._path`: no path at all, or the empty (falsy) string. */
  predicate IsNull(a: Address)
  {
    a.path.None? || a.path == Some("")
  }

  /** The `File` constructor on the normalised argument `p` (None for a falsy
      argument); `relative` is computed from the process and passed in. */
  function MakeAddress(p: Option<string>, relative: string): (a: Address)
    ensures a.relative == relative
    ensures Consistent(a)
    ensures IsNull(a) <==> p == None || p == Some("") || p == Some("./")
    ensures a.isAbsolute <==> p.Some? && LooksAbsolute(p.value)
    ensures p == Some("../") ==> a.path == Some("..")
    ensures p.Some? && p.value != "" && p.value != "./" && p.value != "../" ==> a.path == p
    ensures a.path.Some? ==>
      a.relativePath == Some(if a.isAbsolute then a.path.value else Join(relative, a.path.value))
  {
    if p.None? || p.value == "" then
      Address(false, relative, None, None)
    else
      var abs := LooksAbsolute(p.value);
      var q := if p.value == "./" then "" else if p.value == "../" then ".." else p.value;
      Address(abs, relative, Some(q), Some(if abs then q else Join(relative, q)))
  }

  /** `getParent` on a non-null path: the part before the last separator, the
      root when that separator is the first character, nothing when there is
      no separator or the path is the root itself. */
  function ParentPath(p: string): (r: Option<string>)
    ensures r.None? <==> Sep !in p || p == [Sep]
    ensures r.Some? ==> 0 < |r.value| < |p|
    ensures r.Some? && r.value != [Sep] ==>
      r.value == p[..|r.value|] && p[|r.value|] == Sep && forall j :: |r.value| < j < |p| ==> p[j] != Sep
    ensures r == Some([Sep]) ==> p[0] == Sep && forall j :: 1 < j < |p| ==> p[j] != Sep
  {
    var i := LastIndexOf(p, Sep);
    if i == -1 then None
    else if i == 0 then (if p == [Sep] then None else Some([Sep]))
    else Some(p[..i])
  }

  /** `File.prototype.getParent`. */
  function GetParent(a: Address): (r: Option<string>)
    ensures r.None? <==> IsNull(a) || Sep !in a.path.value || a.path.value == [Sep]
    ensures r.Some? ==> !IsNull(a) && |r.value| < |a.path.value|
  {
    if IsNull(a) then None else ParentPath(a.path.value)
  }

  /** `File.prototype.getParentFile`: a new `File` on the parent path. */
  function GetParentFile(a: Address): (r: Option<Address>)
    ensures r.None? <==> GetParent(a).None?
    ensures r.Some? ==> r.value.path.Some? && |r.value.path.value| < |a.path.value|
    ensures r.Some? ==> r.value.relative == a.relative
  {
    match GetParent(a)
    case None => None
    case Some(q) => Some(MakeAddress(Some(q), a.relative))
  }

  /** `File.prototype.getAbsolutePath`; `mainDir` is the directory of the
      entry module (`new File (process.mainModule.filename).getParent ()`). */
  function AbsolutePath(a: Address, mainDir: string): (r: Option<string>)
    ensures r.None? <==> IsNull(a)
    ensures r.Some? ==> r.value != ""
    ensures r.Some? && a.isAbsolute ==> r == a.path
  {
    if IsNull(a) then None
    else if a.isAbsolute then a.path
    else Some(Join(mainDir, a.path.value))
  }

  /** `File.prototype.equals`: the absolute paths compared as strings
      (two null paths are equal, `null === null`). */
  function Equals(a: Address, b: Address, mainDir: string): (r: bool)
    ensures r ==> (IsNull(a) <==> IsNull(b))
    ensures IsNull(a) && IsNull(b) ==> r
    ensures !IsNull(a) && !IsNull(b) && a.isAbsolute && b.isAbsolute ==> (r <==> a.path == b.path)
  {
    AbsolutePath(a, mainDir) == AbsolutePath(b, mainDir)
  }

  /** How the file system reads a path string: the names between separators,
      empty names dropped (so `a/b`, `a/b/` and `a//b` name the same place). */
  function Components(s: string): seq<string>
    decreases |s|
  {
    var i := LastIndexOf(s, Sep);
    if i == -1 then (if s == "" then [] else [s])
    else Components(s[..i]) + (if i == |s| - 1 then [] else [s[i + 1..]])
  }

  /** The parent path names a prefix of the same place: one name shorter, or
      the same place when the path ends with a separator. */
  lemma ParentComponents(p: string)
    requires ParentPath(p).Some?
    ensures var c := Components(p); var q := Components(ParentPath(p).value);
      q <= c && |c| <= |q| + 1 && (p[|p| - 1] != Sep ==> |c| == |q| + 1)
  {
    var i := LastIndexOf(p, Sep);
    if i == 0 {
      assert Components([Sep]) == [] by {
        assert LastIndexOf([Sep], Sep) == 0;
        assert [Sep][..0] == "";
      }
      assert p[..0] == "";
    }
  }

  /** A path without separators names one place directly below the root or
      the working directory. */
  lemma NoSeparatorComponents(p: string)
    requires p != "" && Sep !in p
    ensures Components(p) == [p]
  {
  }
}
