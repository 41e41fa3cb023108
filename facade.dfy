/**
 * The `File` object and its small state machines (src/file-utils.js:19-52,
 * 231-322, 529-565, 644-653): the exit listener `removeOnExit` keeps in step
 * with its flag, `createDirectory`, `createNewFile`, the retry loop of
 * `createTempFile`, and the exists/replace decision of `rename`.
 *
 * `Math.random` is replaced by the sequence of numbers it would draw; the
 * process is reduced to its list of exit listeners.
 */
module Facade {
  import opened Base
  import opened Paths
  import opened Tree
  import opened Removal
  import opened Copying
  import opened Disks

  /** `process`, as far as `removeOnExit` sees it: the `"exit"` listeners in
      registration order, each named by a number. */
  class Process {
    var listeners: seq<nat>

    constructor()
      ensures listeners == []
    {
      listeners := [];
    }
  }

  /** `removeListener`: the first registration of `x` taken out. */
  function Without(s: seq<nat>, x: nat): (r: seq<nat>)
    ensures x in s ==> multiset(r) == multiset(s) - multiset{x}
    ensures x !in s ==> r == s
  {
    if s == [] then []
    else
      assert s == [s[0]] + s[1..];
      if s[0] == x then s[1..] else [s[0]] + Without(s[1..], x)
  }

  class File {
    /** The constructor's read-only properties. */
    const address: Address
    /** The identity of `_removeOnExitCallback`. */
    const callback: nat
    /** `_removeOnExit`, the one writable property. */
    var removeOnExit: bool

    constructor(p: Option<string>, relative: string, callback: nat)
      ensures address == MakeAddress(p, relative)
      ensures this.callback == callback
      ensures !removeOnExit
    {
      address := MakeAddress(p, relative);
      this.callback := callback;
      removeOnExit := false;
    }

    /** The exit callback is registered once while the flag is set, and not
        at all while it is clear. */
    ghost predicate Registered(proc: Process)
      reads this, proc
    {
      multiset(proc.listeners)[callback] == if removeOnExit then 1 else 0
    }

    /** `removeOnExit (remove)`: the flag follows `remove`, the listener is
        added or taken out when the flag changes, and no other listener is
        touched. */
    method RemoveOnExit(remove: bool, proc: Process)
      requires Registered(proc)
      modifies this, proc
      ensures removeOnExit == remove
      ensures Registered(proc)
      ensures old(removeOnExit) == remove ==> proc.listeners == old(proc.listeners)
      ensures !old(removeOnExit) && remove ==> proc.listeners == old(proc.listeners) + [callback]
      ensures old(removeOnExit) && !remove ==> proc.listeners == Without(old(proc.listeners), callback)
      ensures forall j :: j != callback ==> multiset(proc.listeners)[j] == multiset(old(proc.listeners))[j]
    {
      if !removeOnExit && remove {
        removeOnExit := remove;
        proc.listeners := proc.listeners + [callback];
      } else if removeOnExit && !remove {
        removeOnExit := remove;
        proc.listeners := Without(proc.listeners, callback);
      }
    }

    /** `createDirectory`: `false` for a null path, otherwise `mkdirDeep` on
        the absolute path. */
    method CreateDirectory(disk: Disk, mainDir: string) returns (r: Reply<bool>)
      requires disk.Valid()
      modifies disk
      ensures disk.Valid() && disk.files == old(disk.files)
      ensures IsNull(address) ==> r == Ok(false) && disk.dirs == old(disk.dirs)
      ensures !IsNull(address) ==>
        (r, disk.dirs) == Deep(AbsolutePath(address, mainDir).value, old(disk.dirs), old(disk.files))
    {
      if IsNull(address) {
        return Ok(false);
      }
      r := disk.MkdirDeep(AbsolutePath(address, mainDir).value);
    }

    /** `createNewFile`. */
    method CreateNewFile(disk: Disk) returns (rs: seq<Reply<bool>>)
      requires Consistent(address) && disk.Valid()
      modifies disk
      ensures disk.Valid() && disk.dirs == old(disk.dirs)
      ensures (rs, disk.files) == NewFile(address, old(disk.dirs), old(disk.files))
    {
      if IsNull(address) {
        return [Ok(false)];
      }
      var p := address.relativePath.value;
      if disk.Exists(p) {
        return [Ok(false)];
      }
      var error := disk.CreateEmpty(p);
      rs := if error.Some? then [Ok(true), Fail(error.value)] else [Ok(true)];
    }
  }

  /** What `createNewFile` reports and the files afterwards: `false` for a
      null path or an existing one; otherwise `true` at once, followed by
      the stream's error when there is no directory to hold the file. */
  function NewFile(a: Address, dirs: set<string>, files: set<string>): (r: (seq<Reply<bool>>, set<string>))
    requires Consistent(a)
    ensures 1 <= |r.0| <= 2
    ensures files <= r.1
    ensures IsNull(a) ==> r == ([Ok(false)], files)
    ensures !IsNull(a) ==> r.1 - files <= {a.relativePath.value}
  {
    if IsNull(a) then ([Ok(false)], files)
    else
      var p := a.relativePath.value;
      if p in dirs || p in files then ([Ok(false)], files)
      else if ParentReady(p, dirs) then ([Ok(true)], files + {p})
      else ([Ok(true), Fail(NoParent(p))], files)
  }

  /** `createNewFile` answers `true` whenever the path was free, even when
      the file cannot be written; the file exists afterwards exactly when no
      error follows. */
  lemma NewFileAnswers(a: Address, dirs: set<string>, files: set<string>)
    requires Consistent(a) && !IsNull(a)
    ensures var (rs, after) := NewFile(a, dirs, files);
      var p := a.relativePath.value;
      && (rs[0] == Ok(true) <==> p !in dirs && p !in files)
      && (rs[0] == Ok(true) ==> (p in after <==> FailuresOf(rs) == []))
  {
    var (rs, after) := NewFile(a, dirs, files);
    var p := a.relativePath.value;
    if rs == [Ok(true), Fail(NoParent(p))] {
      assert rs[..1] == [Ok(true)];
    }
  }

  /** After `createNewFile` has made the file, a second call answers
      `false`. */
  lemma NewFileTwice(a: Address, dirs: set<string>, files: set<string>)
    requires Consistent(a)
    requires NewFile(a, dirs, files).0 == [Ok(true)]
    ensures NewFile(a, dirs, NewFile(a, dirs, files).1) == ([Ok(false)], NewFile(a, dirs, files).1)
  {
  }

  /** The settings object of `createTempFile`; a missing or empty entry
      takes the default. */
  datatype Settings = Settings(prefix: Option<string>, suffix: Option<string>, directory: Option<string>)

  function OrElse(o: Option<string>, d: string): string
  {
    if o.Some? && o.value != "" then o.value else d
  }

  /** The character of one decimal digit. */
  function DigitChar(d: nat): char
    requires d < 10
  {
    ('0' as int + d) as char
  }

  /** How JavaScript prints a non-negative integer: decimal digits, no
      leading zero. */
  function Decimal(n: nat): (s: string)
    ensures |s| >= 1
    ensures forall i :: 0 <= i < |s| ==> '0' <= s[i] <= '9'
  {
    if n < 10 then [DigitChar(n)] else Decimal(n / 10) + [DigitChar(n % 10)]
  }

  /** Reading decimal digits back as a number. */
  function ParseDecimal(s: string): nat
  {
    if s == [] then 0
    else
      var d := s[|s| - 1] as int - '0' as int;
      ParseDecimal(s[..|s| - 1]) * 10 + (if 0 <= d then d else 0)
  }

  lemma {:induction false} DecimalRoundTrip(n: nat)
    ensures ParseDecimal(Decimal(n)) == n
  {
    if n >= 10 {
      DecimalRoundTrip(n / 10);
      var s := Decimal(n);
      assert s[..|s| - 1] == Decimal(n / 10);
    }
  }

  /** The name `createTempFile` tries for the drawn number `n`:
      `PATH.join (dir, pre + n + suf)`. */
  function TempPath(settings: Option<Settings>, n: nat): (p: string)
    ensures p != ""
  {
    var pre := if settings.Some? then OrElse(settings.value.prefix, "") else "";
    var suf := if settings.Some? then OrElse(settings.value.suffix, "") else "";
    var dir := if settings.Some? then OrElse(settings.value.directory, ".") else ".";
    Join(dir, pre + Decimal(n) + suf)
  }

  /** `PATH.join` with a fixed first part tells different second parts
      apart. */
  lemma JoinInjective(a: string, x: string, y: string)
    requires x != "" && y != ""
    ensures x != y ==> Join(a, x) != Join(a, y)
  {
    if a == "" || a == "." {
    } else if a[|a| - 1] == Sep {
      assert x == Join(a, x)[|a|..] && y == Join(a, y)[|a|..];
    } else {
      assert x == Join(a, x)[|a| + 1..] && y == Join(a, y)[|a| + 1..];
    }
  }

  /** A fixed prefix and suffix tell different middles apart. */
  lemma AffixInjective(pre: string, u: string, v: string, suf: string)
    ensures u != v ==> pre + u + suf != pre + v + suf
  {
    var x, y := pre + u + suf, pre + v + suf;
    if |u| == |v| {
      assert u == x[|pre|..|pre| + |u|] && v == y[|pre|..|pre| + |v|];
    } else {
      assert |x| != |y|;
    }
  }

  /** Two different draws name two different files, so each retry probes a
      new path. */
  lemma TempPathsDistinct(settings: Option<Settings>, m: nat, n: nat)
    requires m != n
    ensures TempPath(settings, m) != TempPath(settings, n)
  {
    var pre := if settings.Some? then OrElse(settings.value.prefix, "") else "";
    var suf := if settings.Some? then OrElse(settings.value.suffix, "") else "";
    var dir := if settings.Some? then OrElse(settings.value.directory, ".") else ".";
    DecimalRoundTrip(m);
    DecimalRoundTrip(n);
    AffixInjective(pre, Decimal(m), Decimal(n), suf);
    JoinInjective(dir, pre + Decimal(m) + suf, pre + Decimal(n) + suf);
  }

  /** The string the file system sees for the candidate `n`: the new
      `File`'s `_relativePath`. */
  function TempLocation(settings: Option<Settings>, relative: string, n: nat): string
  {
    var a := MakeAddress(Some(TempPath(settings, n)), relative);
    a.relativePath.value
  }

  /** `File.createTempFile`: numbers are drawn until a name is free; that
      `File` is marked `removeOnExit` and an empty file is written. With the
      draws exhausted no file is made. */
  method CreateTempFile(settings: Option<Settings>, draws: seq<nat>, relative: string, disk: Disk, proc: Process, callback: nat)
    returns (f: File?, chosen: nat, error: Option<Error>)
    requires disk.Valid()
    requires callback !in proc.listeners
    modifies disk, proc
    ensures disk.Valid() && disk.dirs == old(disk.dirs)
    ensures chosen <= |draws|
    ensures forall j :: 0 <= j < chosen ==> old(disk.Exists(TempLocation(settings, relative, draws[j])))
    ensures f != null <==> chosen < |draws|
    ensures f == null ==> disk.files == old(disk.files) && proc.listeners == old(proc.listeners) && error.None?
    ensures f != null ==>
      var p := TempLocation(settings, relative, draws[chosen]);
      && fresh(f)
      && !old(disk.Exists(p))
      && f.address == MakeAddress(Some(TempPath(settings, draws[chosen])), relative)
      && f.removeOnExit && f.Registered(proc)
      && proc.listeners == old(proc.listeners) + [callback]
      && (ParentReady(p, disk.dirs) ==> error.None? && disk.files == old(disk.files) + {p})
      && (!ParentReady(p, disk.dirs) ==> error == Some(NoParent(p)) && disk.files == old(disk.files))
  {
    var names := seq(|draws|, j requires 0 <= j < |draws| => TempLocation(settings, relative, draws[j]));
    chosen := FirstFree(names, disk);
    forall j | 0 <= j < chosen
      ensures disk.Exists(TempLocation(settings, relative, draws[j]))
    {
      assert names[j] == TempLocation(settings, relative, draws[j]);
    }
    if chosen == |draws| {
      return null, chosen, None;
    }
    f := new File(Some(TempPath(settings, draws[chosen])), relative, callback);
    assert f.Registered(proc);
    f.RemoveOnExit(true, proc);
    assert multiset(proc.listeners)[callback] == 1;
    error := disk.CreateEmpty(TempLocation(settings, relative, draws[chosen]));
  }

  /** The retries of `createTempFile`: the first candidate name that is
      free, or the number of candidates when every name is taken. */
  method FirstFree(names: seq<string>, disk: Disk) returns (chosen: nat)
    ensures chosen <= |names|
    ensures forall j :: 0 <= j < chosen ==> disk.Exists(names[j])
    ensures chosen < |names| ==> !disk.Exists(names[chosen])
  {
    chosen := 0;
    while chosen < |names| && disk.Exists(names[chosen])
      invariant chosen <= |names|
      invariant forall j :: 0 <= j < chosen ==> disk.Exists(names[j])
    {
      chosen := chosen + 1;
    }
  }

  /** What `rename` does after its null-path guard. */
  datatype RenameStep = Refuse | Move

  /** `rename (file, replace)`: with `replace` it moves at once; otherwise
      it moves only when nothing exists at the new name. */
  function RenameDecision(a: Address, replace: bool, taken: bool): RenameStep
  {
    if IsNull(a) then Refuse
    else if replace then Move
    else if taken then Refuse
    else Move
  }

  /** `rename`'s callback: `(null, false)` without moving; otherwise
      `FS.rename`'s error, or `true`. */
  function Rename(a: Address, replace: bool, taken: bool, moveError: Option<Error>): (rs: seq<Reply<bool>>)
    ensures |rs| == 1
    ensures rs[0] == Ok(true) <==> !IsNull(a) && (replace || !taken) && moveError.None?
    ensures rs[0] == Ok(false) <==> IsNull(a) || (!replace && taken)
    ensures rs[0].Fail? ==> moveError == Some(rs[0].error)
  {
    match RenameDecision(a, replace, taken)
    case Refuse => [Ok(false)]
    case Move => if moveError.Some? then [Fail(moveError.value)] else [Ok(true)]
  }

  /** `rename` moves exactly when the path is not null and either `replace`
      is set or nothing is at the new name. */
  lemma RenameMoves(a: Address, replace: bool, taken: bool)
    ensures RenameDecision(a, replace, taken) == Move <==> !IsNull(a) && (replace || !taken)
  {
  }

  /** `copy` and `rename` share one decision: on a non-null path whose
      `stat` succeeds, `copy` answers `false` exactly when `rename` would
      refuse to move. */
  lemma CopyRefusesLikeRename(a: Address, source: Node, target: Node, to: string, replace: bool, parentReady: bool)
    requires !IsNull(a) && !source.Absent?
    ensures RenameDecision(a, replace, !target.Absent?) == Refuse <==>
      false in OksOf(Copy(a, source, target, to, replace, parentReady))
  {
    var rs := Copy(a, source, target, to, replace, parentReady);
    if RenameDecision(a, replace, !target.Absent?) == Refuse {
      assert OksOf(rs) == OksOf(rs[..0]) + [false];
    } else {
      CopyNeverRefusesWhenFree(a, source, target, to, replace, parentReady);
    }
  }
}
