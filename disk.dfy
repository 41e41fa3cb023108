/**
 * The existence side of the file system, for the operations that create
 * things: `createDirectory`'s `mkdirDeep` (src/file-utils.js:231-269) and
 * the creation of an empty file by `createNewFile` and `createTempFile`
 * (src/file-utils.js:271-322).
 *
 * `mkdirDeep` calls `path.mkdir` on a `File`, which the `File` prototype
 * does not define: `DeepAsWritten` is that code, and `Deep` reads the call
 * as `FS.mkdir` on the path, reporting `(error, created)`. The paths are absolute (`getAbsoluteFile`), so a
 * `File`'s `_relativePath` is its path.
 */
module Disks {
  import opened Base
  import opened Paths

  /** `FS.mkdir` and `FS.createWriteStream` need the parent to be a
      directory; a path without separator lives in the working directory,
      which exists. */
  predicate ParentReady(p: string, dirs: set<string>)
  {
    ParentPath(p).None? || ParentPath(p).value in dirs
  }

  /** `mkdirDeep` can create `p`: walking up from `p` through missing paths
      it reaches one whose parent is a directory. */
  predicate Rooted(p: string, dirs: set<string>, files: set<string>)
    decreases |p|
  {
    ParentReady(p, dirs)
    || (var q := ParentPath(p); q.Some? && q.value !in dirs && q.value !in files && Rooted(q.value, dirs, files))
  }

  /** `mkdirDeep (p)` on the directories `dirs` and files `files`: its
      answer and the directories afterwards. */
  function Deep(p: string, dirs: set<string>, files: set<string>): (r: (Reply<bool>, set<string>))
    ensures dirs <= r.1
    ensures r.0 == Ok(true) ==> p in r.1 && p !in dirs && p !in files
    ensures r.0 != Ok(true) ==> r.1 == dirs
    decreases |p|
  {
    if p in dirs || p in files then (Ok(false), dirs)
    else if ParentReady(p, dirs) then (Ok(true), dirs + {p})
    else
      var q := ParentPath(p).value;
      var up := Deep(q, dirs, files);
      if up.0 == Ok(true) then (Ok(true), up.1 + {p})
      else if q in dirs || q in files then (Fail(NotADirectory), dirs)
      else (Ok(false), dirs)
  }

  /** `mkdirDeep` answers `true` exactly when `p` was missing and can be
      reached from an existing directory; it then creates `p`, and it never
      removes anything. When it does not answer `true` nothing changes. */
  lemma {:induction false} DeepCreates(p: string, dirs: set<string>, files: set<string>)
    ensures Deep(p, dirs, files).0 == Ok(true) <==> p !in dirs && p !in files && Rooted(p, dirs, files)
    ensures Deep(p, dirs, files).0 == Ok(true) ==> p in Deep(p, dirs, files).1
    ensures Deep(p, dirs, files).0 != Ok(true) ==> Deep(p, dirs, files).1 == dirs
    ensures dirs <= Deep(p, dirs, files).1
    decreases |p|
  {
    if p !in dirs && p !in files && !ParentReady(p, dirs) {
      DeepCreates(ParentPath(p).value, dirs, files);
    }
  }

  /** Everything `mkdirDeep` creates is `p` or a path leading to it. */
  lemma {:induction false} DeepCreatesPrefixes(p: string, dirs: set<string>, files: set<string>)
    ensures forall x :: x in Deep(p, dirs, files).1 && x !in dirs ==> |x| <= |p| && p[..|x|] == x
    decreases |p|
  {
    if p !in dirs && p !in files && !ParentReady(p, dirs) {
      var q := ParentPath(p).value;
      DeepCreatesPrefixes(q, dirs, files);
      DeepCreates(q, dirs, files);
      assert p[..|q|] == q;
      forall x | x in Deep(q, dirs, files).1 && x !in dirs
        ensures |x| <= |p| && p[..|x|] == x
      {
        assert q[..|x|] == x;
      }
    }
  }

  /** `mkdirDeep` as written: when `p` exists it answers `false`; otherwise
      its call of the undefined `path.mkdir` throws inside the `exists`
      callback, so it never answers and creates nothing. */
  function DeepAsWritten(p: string, dirs: set<string>, files: set<string>): (r: seq<Reply<bool>>)
    ensures r == [] <==> p !in dirs && p !in files
    ensures r != [] ==> r == [Ok(false)]
  {
    if p in dirs || p in files then [Ok(false)] else []
  }

  /** Every path `mkdirDeep` is meant to create is one on which the code as
      written never calls back. */
  lemma MkdirDeepNeverAnswers(p: string, dirs: set<string>, files: set<string>)
    requires p !in dirs && p !in files && Rooted(p, dirs, files)
    ensures Deep(p, dirs, files).0 == Ok(true)
    ensures DeepAsWritten(p, dirs, files) == []
  {
    DeepCreates(p, dirs, files);
  }

  /** Once `mkdirDeep` has created `p`, a second call answers `false` and
      changes nothing. */
  lemma DeepTwice(p: string, dirs: set<string>, files: set<string>)
    requires Deep(p, dirs, files).0 == Ok(true)
    ensures var after := Deep(p, dirs, files).1;
      Deep(p, after, files) == (Ok(false), after)
  {
    DeepCreates(p, dirs, files);
  }

  /** The paths that exist: directories and files. */
  class Disk {
    var dirs: set<string>
    var files: set<string>

    /** A path is a directory or a file, not both, and everything but the
        working directory's own entries sits in a directory. */
    ghost predicate Valid()
      reads this
    {
      && dirs !! files
      && (forall p :: p in dirs ==> ParentReady(p, dirs))
      && (forall p :: p in files ==> ParentReady(p, dirs))
    }

    constructor(dirs: set<string>, files: set<string>)
      ensures this.dirs == dirs && this.files == files
    {
      this.dirs := dirs;
      this.files := files;
    }

    /** `PATH.exists`. */
    predicate Exists(p: string)
      reads this
    {
      p in dirs || p in files
    }

    /** `FS.mkdir`: `(error, created)`. */
    method Mkdir(p: string) returns (r: Reply<bool>)
      requires Valid()
      modifies this
      ensures Valid()
      ensures files == old(files)
      ensures old(Exists(p)) ==> r == Fail(AlreadyExists(p)) && dirs == old(dirs)
      ensures !old(Exists(p)) && !ParentReady(p, old(dirs)) ==> r == Fail(NoParent(p)) && dirs == old(dirs)
      ensures !old(Exists(p)) && ParentReady(p, old(dirs)) ==> r == Ok(true) && dirs == old(dirs) + {p}
    {
      if p in dirs || p in files {
        r := Fail(AlreadyExists(p));
      } else if !ParentReady(p, dirs) {
        r := Fail(NoParent(p));
      } else {
        dirs := dirs + {p};
        r := Ok(true);
      }
    }

    /** `mkdirDeep`: create `p` after the missing directories above it. */
    method MkdirDeep(p: string) returns (r: Reply<bool>)
      requires Valid()
      modifies this
      ensures Valid()
      ensures (r, dirs) == Deep(p, old(dirs), old(files))
      ensures files == old(files)
      decreases |p|
    {
      if p in dirs || p in files {
        return Ok(false);
      }
      var made := Mkdir(p);
      if made == Ok(true) {
        return Ok(true);
      }
      var parent := ParentPath(p);
      if parent.None? {
        assert false;
        return Ok(false);
      }
      var up := MkdirDeep(parent.value);
      if up == Ok(true) {
        DeepCreates(parent.value, old(dirs), files);
        DeepCreatesPrefixes(parent.value, old(dirs), files);
        assert p !in dirs;
        made := Mkdir(p);
        return made;
      }
      DeepCreates(parent.value, old(dirs), files);
      if !Exists(parent.value) {
        return Ok(false);
      }
      made := Mkdir(p);
      r := if made.Fail? then Fail(NotADirectory) else made;
    }

    /** `FS.createWriteStream (p)` closed at once: an empty file where
        nothing is, or a stream error when there is no directory to hold
        it. */
    method CreateEmpty(p: string) returns (error: Option<Error>)
      requires Valid() && !Exists(p)
      modifies this
      ensures Valid()
      ensures dirs == old(dirs)
      ensures ParentReady(p, dirs) ==> error.None? && files == old(files) + {p}
      ensures !ParentReady(p, dirs) ==> error == Some(NoParent(p)) && files == old(files)
    {
      if ParentReady(p, dirs) {
        files := files + {p};
        error := None;
      } else {
        error := Some(NoParent(p));
      }
    }
  }
}
