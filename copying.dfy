/**
 * `File.prototype.copy` (src/file-utils.js:139-229).
 *
 * The decision table: a null source answers `false`; a source whose `stat`
 * fails passes the error on; an existing destination without `replace`
 * answers `false`; a file is streamed; a directory is created with `mkdir`
 * (after `remove` of an existing destination when `replace` is set), and
 * each of its entries is copied into it with `replace` left `false`. The
 * directory counter has no check for zero entries: an empty directory
 * never answers.
 *
 * The destination is described by the node already at its path (`Absent`
 * when `PATH.exists` is false) and by whether its parent directory exists.
 * The write stream fails when the parent is missing or a directory is at
 * the path; `mkdir` fails when the parent is missing or something is still
 * at the path. Once the stream is open, the file's bytes are taken to be
 * written.
 */
module Copying {
  import opened Base
  import opened Paths
  import opened Tree
  import opened FanIn
  import opened Removal

  /** What one child `copy` reports to its parent's counter; the child's
      destination is inside the directory just made, so nothing is there
      and its parent exists. */
  function EntryCopy(name: string, node: Node, from: string, to: string): seq<Signal<bool>>
    decreases node, 2
  {
    Relay(name, CopyNode(node, Join(from, name), Join(to, name)), (b: bool) => b)
  }

  /** The reports of every entry of one directory. */
  function LevelCopy(es: seq<Entry>, from: string, to: string): seq<Signal<bool>>
    decreases es, 0
  {
    if es == [] then [] else EntryCopy(es[0].name, es[0].node, from, to) + LevelCopy(es[1..], from, to)
  }

  /** `copyDirectory` once `mkdir` has succeeded: each child error passed on,
      and `cb (null, true)` when `done` reaches a non-zero number of
      entries. It never answers `false`, and never answers at all for an
      empty directory. */
  function CopyLevel(es: seq<Entry>, from: string, to: string): (r: seq<Reply<bool>>)
    ensures OksOf(r) == [] || OksOf(r) == [true]
    ensures es == [] ==> r == []
    decreases es, 1
  {
    var sigs := LevelCopy(es, from, to);
    var fires := Fires(|es|, false, |Dones(sigs)|);
    ErrorsThenResult(Failures(sigs), fires, true);
    FailAll(Failures(sigs)) + (if fires then [Ok(true)] else [])
  }

  /** `copy` of the node at `from` to a destination where nothing is and
      whose parent exists: it never refuses. */
  function CopyNode(node: Node, from: string, to: string): (r: seq<Reply<bool>>)
    ensures OksOf(r) == [] || OksOf(r) == [true]
    decreases node, 1
  {
    match node
    case Absent => Single(Fail(StatFailed(from)))
    case FileNode(_) => Single(Ok(true))
    case Special => []
    case DirNode(es) => CopyLevel(es, from, to)
  }

  /** One reply, with what it carries. */
  function Single(r: Reply<bool>): (rs: seq<Reply<bool>>)
    ensures rs == [r]
    ensures OksOf(rs) == if r.Ok? then [r.value] else []
    ensures FailuresOf(rs) == if r.Fail? then [r.error] else []
  {
    assert [r][..0] == [];
    [r]
  }

  /** The callback of `remove` on the destination: each error passed on;
      after each success `copyDirectory` runs, and its `mkdir` fails when
      `remove` answered `false` and left the destination in place. */
  function ThenCopy(rs: seq<Reply<bool>>, k: seq<Reply<bool>>, to: string): (r: seq<Reply<bool>>)
    ensures forall v :: v in OksOf(r) ==> v in OksOf(k)
  {
    if rs == [] then []
    else
      var init := ThenCopy(rs[..|rs| - 1], k, to);
      var last := match rs[|rs| - 1]
        case Fail(e) => Single(Fail(e))
        case Ok(removed) => if removed then k else Single(Fail(AlreadyExists(to)));
      OksOfConcat(init, last);
      init + last
  }

  /** `File.prototype.copy (destination, replace, cb)`; `target` is what is
      at the destination path `to`, and `parentReady` whether the directory
      that would hold it exists. */
  function Copy(a: Address, source: Node, target: Node, to: string, replace: bool, parentReady: bool): (rs: seq<Reply<bool>>)
    ensures IsNull(a) ==> rs == [Ok(false)]
    ensures !IsNull(a) && source.Absent? ==> rs == [Fail(StatFailed(a.path.value))]
    ensures !IsNull(a) && !source.Absent? && !target.Absent? && !replace ==> rs == [Ok(false)]
    ensures !IsNull(a) && (source.FileNode? || source.DirNode?) && target.Absent? && !parentReady ==>
      rs == [Fail(NoParent(to))]
    ensures !IsNull(a) && source.FileNode? && target.DirNode? && replace ==> rs == [Fail(IsADirectory(to))]
  {
    if IsNull(a) then [Ok(false)]
    else if source.Absent? then [Fail(StatFailed(a.path.value))]
    else if !target.Absent? && !replace then [Ok(false)]
    else
      match source
      case FileNode(_) =>
        if target.Absent? && !parentReady then [Fail(NoParent(to))]
        else if target.DirNode? then [Fail(IsADirectory(to))]
        else [Ok(true)]
      case Special => []
      case DirNode(es) =>
        if target.Absent? then
          if parentReady then CopyLevel(es, a.path.value, to) else [Fail(NoParent(to))]
        else ThenCopy(Remove(MakeAddress(Some(to), a.relative), target), CopyLevel(es, a.path.value, to), to)
      case Absent => []
  }

  /** What a copy into a free place creates: files and directories, each
      directory with the entries whose copy creates something; `Absent`
      when nothing is created. */
  function Replica(n: Node): (c: Node)
    ensures c.Absent? <==> !n.FileNode? && !n.DirNode?
    decreases n, 1
  {
    match n
    case FileNode(_) => n
    case DirNode(es) => DirNode(ReplicaEntries(es))
    case _ => Absent
  }

  function ReplicaEntries(es: seq<Entry>): (cs: seq<Entry>)
    ensures |cs| <= |es|
    decreases es, 0
  {
    if es == [] then []
    else
      var c := Replica(es[0].node);
      (if c.Absent? then [] else [Entry(es[0].name, c)]) + ReplicaEntries(es[1..])
  }

  /** What `remove` leaves at the destination; a null address removes
      nothing. */
  function Cleared(d: Address, target: Node): Node
  {
    if IsNull(d) then target else AfterRemoval(target)
  }

  /** The node at `to` once every callback of `copy` has run: what was
      there when the copy is refused, fails its `stat`, cannot open its
      stream or cannot make its directory, and otherwise what it creates. */
  function CopyResult(a: Address, source: Node, target: Node, to: string, replace: bool, parentReady: bool): Node
  {
    if IsNull(a) || source.Absent? || (!target.Absent? && !replace) then target
    else if target.Absent? && !parentReady then Absent
    else
      match source
      case FileNode(_) => if target.DirNode? then target else source
      case DirNode(_) =>
        var left := if target.Absent? then Absent else Cleared(MakeAddress(Some(to), a.relative), target);
        if left.Absent? then Replica(source) else left
      case _ => target
  }

  /** A copy succeeds when everything is a file or a directory and no
      directory, at any depth, is empty. */
  predicate Copyable(n: Node)
  {
    Plain(n) && NoEmptyDirectory(n)
  }

  predicate AllCopyable(es: seq<Entry>)
  {
    forall i :: 0 <= i < |es| ==> Copyable(es[i].node)
  }

  lemma CopyableDirectory(es: seq<Entry>)
    ensures Copyable(DirNode(es)) <==> |es| > 0 && AllCopyable(es)
  {
  }

  lemma AllCopyableCons(es: seq<Entry>)
    requires es != []
    ensures AllCopyable(es) <==> Copyable(es[0].node) && AllCopyable(es[1..])
  {
    assert forall i :: 0 < i < |es| ==> es[i] == es[1..][i - 1];
  }

  lemma {:induction false} EntryCopyFacts(name: string, node: Node, from: string, to: string)
    ensures var sigs := EntryCopy(name, node, from, to);
      && |Dones(sigs)| <= 1
      && (|Dones(sigs)| == 1 <==> Copyable(node))
      && (Failures(sigs) == [] <==> NoDangling(node))
    decreases node, 2
  {
    var path := Join(from, name);
    CopyNodeFacts(node, path, Join(to, name));
    RelayParts(name, CopyNode(node, path, Join(to, name)), (b: bool) => b);
  }

  lemma {:induction false} LevelCopyFacts(es: seq<Entry>, from: string, to: string)
    ensures var sigs := LevelCopy(es, from, to);
      && |Dones(sigs)| <= |es|
      && (|Dones(sigs)| == |es| <==> AllCopyable(es))
      && (Failures(sigs) == [] <==> NoDangling(DirNode(es)))
    decreases es, 0
  {
    if es != [] {
      var head := EntryCopy(es[0].name, es[0].node, from, to);
      var tail := LevelCopy(es[1..], from, to);
      LevelCopyFacts(es[1..], from, to);
      EntryCopyFacts(es[0].name, es[0].node, from, to);
      DonesConcat(head, tail);
      FailuresConcat(head, tail);
      AllCopyableCons(es);
      NoDanglingCons(es);
    }
  }

  /** A directory's copy answers `true` once exactly when it is not empty
      and every entry copies; its errors are those of its entries. */
  lemma {:induction false} CopyLevelFacts(es: seq<Entry>, from: string, to: string)
    ensures OksOf(CopyLevel(es, from, to)) == if Copyable(DirNode(es)) then [true] else []
    ensures FailuresOf(CopyLevel(es, from, to)) == Failures(LevelCopy(es, from, to))
    decreases es, 1
  {
    var sigs := LevelCopy(es, from, to);
    var tail: seq<Reply<bool>> := if Fires(|es|, false, |Dones(sigs)|) then [Ok(true)] else [];
    LevelCopyFacts(es, from, to);
    OksOfConcat(FailAll(Failures(sigs)), tail);
    OksOfFailAll<bool>(Failures(sigs));
    FailuresOfConcat(FailAll(Failures(sigs)), tail);
    FailuresOfFailAll<bool>(Failures(sigs));
    if tail != [] {
      assert tail[..0] == [];
    }
    CopyableDirectory(es);
  }

  /** A copy into a free destination answers `true`, once, exactly when the
      source is copyable, and reports an error exactly when something below
      fails its `stat`. */
  lemma {:induction false} CopyNodeFacts(node: Node, from: string, to: string)
    ensures OksOf(CopyNode(node, from, to)) == if Copyable(node) then [true] else []
    ensures FailuresOf(CopyNode(node, from, to)) == [] <==> NoDangling(node)
    decreases node, 1
  {
    match node
    case FileNode(_) =>
      assert CopyNode(node, from, to)[..0] == [];
    case Absent =>
      assert CopyNode(node, from, to)[..0] == [];
    case Special =>
    case DirNode(es) =>
      CopyLevelFacts(es, from, to);
      LevelCopyFacts(es, from, to);
  }

  /** A copy into a free destination passes on one error for each entry,
      at any depth, that fails its `stat`. */
  lemma {:induction false} CopyErrorCount(node: Node, from: string, to: string)
    ensures |FailuresOf(CopyNode(node, from, to))| == Dangling(node)
    decreases node, 1
  {
    match node
    case FileNode(_) =>
    case Absent =>
    case Special =>
    case DirNode(es) =>
      CopyLevelFacts(es, from, to);
      LevelCopyErrors(es, from, to);
  }

  lemma {:induction false} EntryCopyErrors(name: string, node: Node, from: string, to: string)
    ensures |Failures(EntryCopy(name, node, from, to))| == Dangling(node)
    decreases node, 2
  {
    CopyErrorCount(node, Join(from, name), Join(to, name));
    RelayParts(name, CopyNode(node, Join(from, name), Join(to, name)), (b: bool) => b);
  }

  lemma {:induction false} LevelCopyErrors(es: seq<Entry>, from: string, to: string)
    ensures |Failures(LevelCopy(es, from, to))| == DanglingAll(es)
    decreases es, 0
  {
    if es != [] {
      var head := EntryCopy(es[0].name, es[0].node, from, to);
      var tail := LevelCopy(es[1..], from, to);
      LevelCopyErrors(es[1..], from, to);
      EntryCopyErrors(es[0].name, es[0].node, from, to);
      FailuresConcat(head, tail);
    }
  }

  /** A copy with nothing dangling that cannot succeed (an empty directory
      or something neither file nor directory below) never calls back. */
  lemma SilentCopy(node: Node, from: string, to: string)
    requires NoDangling(node) && !Copyable(node)
    ensures CopyNode(node, from, to) == []
  {
    CopyNodeFacts(node, from, to);
    RepliesSplit(CopyNode(node, from, to));
  }

  /** In particular an empty directory is created but never reported. */
  lemma EmptyDirectorySilent(a: Address, to: string, replace: bool)
    requires !IsNull(a)
    ensures Copy(a, DirNode([]), Absent, to, replace, true) == []
    ensures CopyResult(a, DirNode([]), Absent, to, replace, true) == DirNode([])
  {
  }

  /** Without anything at the destination and with its parent in place,
      `copy` is the copy of the source node into a free destination, and
      what it leaves there is the copied tree. */
  lemma CopyFresh(a: Address, source: Node, to: string, replace: bool)
    requires !IsNull(a)
    ensures Copy(a, source, Absent, to, replace, true) == CopyNode(source, a.path.value, to)
    ensures CopyResult(a, source, Absent, to, replace, true) == Replica(source)
  {
  }

  /** Without the destination's parent, a file or a directory is not copied:
      the stream or `mkdir` fails and nothing is created. */
  lemma CopyNoParent(a: Address, source: Node, to: string, replace: bool)
    requires !IsNull(a) && (source.FileNode? || source.DirNode?)
    ensures Copy(a, source, Absent, to, replace, false) == [Fail(NoParent(to))]
    ensures CopyResult(a, source, Absent, to, replace, false) == Absent
  {
  }

  /** A tree of files and directories is copied as it is. */
  lemma {:induction false} PlainCopied(n: Node)
    requires Plain(n)
    ensures Replica(n) == n
    decreases n, 1
  {
    match n
    case FileNode(_) =>
    case DirNode(es) =>
      PlainEntriesCopied(es);
  }

  lemma {:induction false} PlainEntriesCopied(es: seq<Entry>)
    requires Plain(DirNode(es))
    ensures ReplicaEntries(es) == es
    decreases es, 0
  {
    if es != [] {
      PlainCons(es);
      PlainCopied(es[0].node);
      PlainEntriesCopied(es[1..]);
      assert [es[0]] + es[1..] == es;
    }
  }

  /** A copy that answers `false` writes nothing: the destination keeps
      what it had. */
  lemma CopyRefusalWritesNothing(a: Address, source: Node, target: Node, to: string, replace: bool, parentReady: bool)
    ensures false in OksOf(Copy(a, source, target, to, replace, parentReady)) ==>
      CopyResult(a, source, target, to, replace, parentReady) == target
  {
    if !IsNull(a) && !source.Absent? && (target.Absent? || replace) {
      CopyNeverRefusesWhenFree(a, source, target, to, replace, parentReady);
    } else if !IsNull(a) && source.Absent? {
      assert OksOf(Copy(a, source, target, to, replace, parentReady)) == OksOf(Single(Fail(StatFailed(a.path.value))));
    }
  }

  /** Past the exists/replace decision, `copy` never answers `false`. */
  lemma CopyNeverRefusesWhenFree(a: Address, source: Node, target: Node, to: string, replace: bool, parentReady: bool)
    requires !IsNull(a) && !source.Absent? && (target.Absent? || replace)
    ensures false !in OksOf(Copy(a, source, target, to, replace, parentReady))
  {
    var rs := Copy(a, source, target, to, replace, parentReady);
    match source
    case FileNode(_) =>
      assert rs == Single(rs[0]);
    case Special =>
    case DirNode(es) =>
      if target.Absent? && !parentReady {
        assert rs == Single(rs[0]);
      }
  }

  /** A copy that answers `true` copied a tree of files and directories
      with no empty directory, and the destination now holds that tree. */
  lemma CopySuccessReproduces(a: Address, source: Node, target: Node, to: string, replace: bool, parentReady: bool)
    ensures true in OksOf(Copy(a, source, target, to, replace, parentReady)) ==>
      Copyable(source) && CopyResult(a, source, target, to, replace, parentReady) == source
  {
    var rs := Copy(a, source, target, to, replace, parentReady);
    if IsNull(a) || source.Absent? || (!target.Absent? && !replace) || (target.Absent? && !parentReady) {
      if rs != [] {
        assert rs == Single(rs[0]);
      }
    } else {
      match source
      case FileNode(_) =>
        assert rs == Single(rs[0]);
      case Special =>
      case DirNode(es) =>
        var k := CopyLevel(es, a.path.value, to);
        CopyLevelFacts(es, a.path.value, to);
        if Copyable(source) {
          PlainCopied(source);
        }
        if !target.Absent? {
          var d := MakeAddress(Some(to), a.relative);
          if IsNull(d) {
            assert rs == ThenCopy([], k, to) + Single(Fail(AlreadyExists(to)));
          } else {
            RemoveOutcome(d, target);
            ResidueFacts(target);
            if !Plain(target) {
              ThenCopyFailures(Remove(d, target), k, to);
              OksOfFailAll<bool>(FailuresOf(Remove(d, target)));
            }
          }
        }
    }
  }

  lemma {:induction false} ThenCopyFailures(rs: seq<Reply<bool>>, k: seq<Reply<bool>>, to: string)
    requires OksOf(rs) == []
    ensures ThenCopy(rs, k, to) == FailAll(FailuresOf(rs))
  {
    if rs != [] {
      var init := rs[..|rs| - 1];
      ThenCopyFailures(init, k, to);
    }
  }

  /** `remove` of a tree of files and directories answers `true` once. */
  lemma PlainRemoved(d: Address, target: Node)
    requires !IsNull(d) && Plain(target)
    ensures Remove(d, target) == [Ok(true)]
  {
    var rs := Remove(d, target);
    RemoveOutcome(d, target);
    PlainNoDangling(target);
    RepliesSplit(rs);
    assert |rs| == 1;
    assert rs == rs[..0] + [rs[0]];
  }

  /** A directory copied over an existing destination with `replace`:
      `remove` runs first. When the destination can be removed entirely,
      the result is the copy into the freed place; otherwise `mkdir` is
      never reached, only the errors of `remove` are passed on, and the
      destination holds what `remove` left. */
  lemma CopyReplace(a: Address, es: seq<Entry>, target: Node, to: string, parentReady: bool)
    requires !IsNull(a) && !target.Absent?
    requires !IsNull(MakeAddress(Some(to), a.relative))
    ensures Plain(target) ==> Copy(a, DirNode(es), target, to, true, parentReady) == CopyLevel(es, a.path.value, to)
    ensures Plain(target) ==> CopyResult(a, DirNode(es), target, to, true, parentReady) == Replica(DirNode(es))
    ensures !Plain(target) ==>
      Copy(a, DirNode(es), target, to, true, parentReady) == FailAll(FailuresOf(Remove(MakeAddress(Some(to), a.relative), target)))
    ensures !Plain(target) ==> CopyResult(a, DirNode(es), target, to, true, parentReady) == AfterRemoval(target)
  {
    var d := MakeAddress(Some(to), a.relative);
    var k := CopyLevel(es, a.path.value, to);
    ResidueFacts(target);
    if Plain(target) {
      PlainRemoved(d, target);
      assert ThenCopy([Ok(true)], k, to) == ThenCopy([], k, to) + k;
    } else {
      RemoveOutcome(d, target);
      ThenCopyFailures(Remove(d, target), k, to);
    }
  }

  /** The completion callback of a directory's `copy`. */
  const Copied: map<string, bool> -> bool := (h: map<string, bool>) => true

  /** One directory level of `copy` as the source runs it: the counter fed
      the children's reports in any arrival order, with no answer for zero
      entries. `cb (null, true)` comes once exactly when the directory is
      copyable; each child error is passed on once. */
  method CopyDirectory(es: seq<Entry>, from: string, to: string, events: seq<Signal<bool>>) returns (replies: seq<Reply<bool>>)
    requires multiset(events) == multiset(LevelCopy(es, from, to))
    ensures OksOf(replies) == if Copyable(DirNode(es)) then [true] else []
    ensures multiset(FailuresOf(replies)) == multiset(FailuresOf(CopyLevel(es, from, to)))
  {
    var out := Gather(|es|, false, events);
    replies := Settle(out, Copied);
    CopyForwards(es, from, to, events, out);
    CopyCompletes(es, from, to, events, out);
  }

  lemma CopyForwards(es: seq<Entry>, from: string, to: string, events: seq<Signal<bool>>, out: seq<Outcome<bool>>)
    requires multiset(events) == multiset(LevelCopy(es, from, to))
    requires Forwarded(out) == Failures(events)
    ensures multiset(FailuresOf(Settle(out, Copied))) == multiset(FailuresOf(CopyLevel(es, from, to)))
  {
    SettleParts(out, Copied);
    CopyLevelFacts(es, from, to);
    PermutedFailures(events, LevelCopy(es, from, to));
  }

  lemma CopyCompletes(es: seq<Entry>, from: string, to: string, events: seq<Signal<bool>>, out: seq<Outcome<bool>>)
    requires multiset(events) == multiset(LevelCopy(es, from, to))
    requires |Completions(out)| == if Fires(|es|, false, |Dones(events)|) then 1 else 0
    ensures OksOf(Settle(out, Copied)) == if Copyable(DirNode(es)) then [true] else []
  {
    SettleParts(out, Copied);
    PermutedDones(events, LevelCopy(es, from, to));
    LevelCopyFacts(es, from, to);
    CopyableDirectory(es);
    var oks := OksOf(Settle(out, Copied));
    if Copyable(DirNode(es)) {
      assert |oks| == 1 && oks[0] == true;
    }
  }
}
