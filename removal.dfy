/**
 * `File.prototype.remove` and `removeSynchronous` (src/file-utils.js:567-642).
 *
 * `remove` unlinks a file at once; for a directory it removes every entry
 * through a child `File`, passing each child error on to its callback, and
 * issues `rmdir` when the completion counter reaches the number of entries
 * (at once for an empty directory). `removeSynchronous` walks the tree
 * depth first and lets the first exception out.
 *
 * `unlink` and `rmdir` are taken to succeed once nothing is left in the
 * directory; their own failures (permissions, a concurrent writer) are not
 * part of this model.
 */
module Removal {
  import opened Base
  import opened Paths
  import opened Tree
  import opened FanIn

  /** What one child `remove` reports to its parent's counter. */
  function EntryRemoval(name: string, node: Node, folder: string): seq<Signal<bool>>
    decreases node
  {
    var path := Join(folder, name);
    match node
    case FileNode(_) => [Done(name, true)]
    case Absent => [Failed(StatFailed(path))]
    case Special => []
    case DirNode(sub) => Relay(name, RemoveLevel(sub, path), (b: bool) => b)
  }

  /** The reports of every entry of one directory. */
  function LevelRemoval(es: seq<Entry>, folder: string): seq<Signal<bool>>
    decreases es, 0
  {
    if es == [] then [] else EntryRemoval(es[0].name, es[0].node, folder) + LevelRemoval(es[1..], folder)
  }

  /** The callback calls of `remove` on a directory: each child error once,
      and `cb (null, true)` after `rmdir` once `done` reaches the number of
      entries. */
  function RemoveLevel(es: seq<Entry>, folder: string): (r: seq<Reply<bool>>)
    ensures OksOf(r) == [] || OksOf(r) == [true]
    ensures es == [] ==> r == [Ok(true)]
    decreases es, 1
  {
    var sigs := LevelRemoval(es, folder);
    var fires := Fires(|es|, true, |Dones(sigs)|);
    ErrorsThenResult(Failures(sigs), fires, true);
    FailAll(Failures(sigs)) + (if fires then [Ok(true)] else [])
  }

  /** `File.prototype.remove` on the node the file system has at the path. */
  function Remove(a: Address, node: Node): (rs: seq<Reply<bool>>)
    ensures IsNull(a) ==> rs == [Ok(false)]
    ensures !IsNull(a) && node.Absent? ==> rs == [Fail(StatFailed(a.path.value))]
    ensures !IsNull(a) && node.FileNode? ==> rs == [Ok(true)]
    ensures node.Special? && !IsNull(a) ==> rs == []
  {
    if IsNull(a) then [Ok(false)]
    else
      match node
      case Absent => [Fail(StatFailed(a.path.value))]
      case FileNode(_) => [Ok(true)]
      case Special => []
      case DirNode(es) => RemoveLevel(es, a.path.value)
  }

  /** One entry reports success at most once, and exactly once when
      everything below it is a file or a directory; it reports no error
      exactly when nothing below it fails its `stat`. */
  lemma {:induction false} EntryRemovalFacts(name: string, node: Node, folder: string)
    ensures var sigs := EntryRemoval(name, node, folder);
      && |Dones(sigs)| <= 1
      && (|Dones(sigs)| == 1 <==> Plain(node))
      && (Failures(sigs) == [] <==> NoDangling(node))
    decreases node
  {
    var sigs := EntryRemoval(name, node, folder);
    match node
    case FileNode(_) =>
      assert sigs[..0] == [];
    case Absent =>
      assert sigs[..0] == [];
    case Special =>
    case DirNode(sub) =>
      var path := Join(folder, name);
      RemoveLevelFacts(sub, path);
      LevelRemovalFacts(sub, path);
      RelayParts(name, RemoveLevel(sub, path), (b: bool) => b);
  }

  lemma {:induction false} LevelRemovalFacts(es: seq<Entry>, folder: string)
    ensures var sigs := LevelRemoval(es, folder);
      && |Dones(sigs)| <= |es|
      && (|Dones(sigs)| == |es| <==> Plain(DirNode(es)))
      && (Failures(sigs) == [] <==> NoDangling(DirNode(es)))
    decreases es, 0
  {
    if es != [] {
      var head := EntryRemoval(es[0].name, es[0].node, folder);
      var tail := LevelRemoval(es[1..], folder);
      LevelRemovalFacts(es[1..], folder);
      EntryRemovalFacts(es[0].name, es[0].node, folder);
      DonesConcat(head, tail);
      FailuresConcat(head, tail);
      PlainCons(es);
      NoDanglingCons(es);
    }
  }

  /** `rmdir` is reached, once, exactly when the whole directory is files and
      directories; the errors are those of the entries. */
  lemma {:induction false} RemoveLevelFacts(es: seq<Entry>, folder: string)
    ensures OksOf(RemoveLevel(es, folder)) == if Plain(DirNode(es)) then [true] else []
    ensures FailuresOf(RemoveLevel(es, folder)) == Failures(LevelRemoval(es, folder))
    decreases es, 1
  {
    var sigs := LevelRemoval(es, folder);
    var tail: seq<Reply<bool>> := if Fires(|es|, true, |Dones(sigs)|) then [Ok(true)] else [];
    LevelRemovalFacts(es, folder);
    OksOfConcat(FailAll(Failures(sigs)), tail);
    OksOfFailAll<bool>(Failures(sigs));
    FailuresOfConcat(FailAll(Failures(sigs)), tail);
    FailuresOfFailAll<bool>(Failures(sigs));
    if tail != [] {
      assert tail[..0] == [];
    }
  }

  /** `remove` passes on one error for each entry, at any depth, that
      fails its `stat`. */
  lemma {:induction false} RemoveErrorCount(a: Address, node: Node)
    requires !IsNull(a)
    ensures |FailuresOf(Remove(a, node))| == Dangling(node)
  {
    match node
    case FileNode(_) =>
      assert Remove(a, node)[..0] == [];
    case Absent =>
      assert Remove(a, node)[..0] == [];
    case Special =>
    case DirNode(es) =>
      RemoveLevelFacts(es, a.path.value);
      LevelRemovalErrors(es, a.path.value);
  }

  lemma {:induction false} EntryRemovalErrors(name: string, node: Node, folder: string)
    ensures |Failures(EntryRemoval(name, node, folder))| == Dangling(node)
    decreases node
  {
    var sigs := EntryRemoval(name, node, folder);
    match node
    case FileNode(_) =>
      assert sigs[..0] == [];
    case Absent =>
      assert sigs[..0] == [];
    case Special =>
    case DirNode(sub) =>
      var path := Join(folder, name);
      RemoveLevelFacts(sub, path);
      LevelRemovalErrors(sub, path);
      RelayParts(name, RemoveLevel(sub, path), (b: bool) => b);
  }

  lemma {:induction false} LevelRemovalErrors(es: seq<Entry>, folder: string)
    ensures |Failures(LevelRemoval(es, folder))| == DanglingAll(es)
    decreases es, 0
  {
    if es != [] {
      var head := EntryRemoval(es[0].name, es[0].node, folder);
      var tail := LevelRemoval(es[1..], folder);
      LevelRemovalErrors(es[1..], folder);
      EntryRemovalErrors(es[0].name, es[0].node, folder);
      FailuresConcat(head, tail);
    }
  }

  /** `remove` on a non-null path succeeds, once, exactly when everything
      there is a file or a directory, and reports an error exactly when
      something below fails its `stat`. */
  lemma RemoveOutcome(a: Address, node: Node)
    requires !IsNull(a)
    ensures OksOf(Remove(a, node)) == if Plain(node) then [true] else []
    ensures FailuresOf(Remove(a, node)) == [] <==> NoDangling(node)
  {
    match node
    case FileNode(_) =>
      assert Remove(a, node)[..0] == [];
    case Absent =>
      assert Remove(a, node)[..0] == [];
    case Special =>
    case DirNode(es) =>
      RemoveLevelFacts(es, a.path.value);
      LevelRemovalFacts(es, a.path.value);
  }

  /** One directory level of `remove` as the source runs it: the counter fed
      the children's reports in any arrival order. `rmdir` is issued, and
      `cb (null, true)` made, once exactly when every entry below is a file
      or a directory; each child error is passed on once. */
  method RemoveDirectory(es: seq<Entry>, folder: string, events: seq<Signal<bool>>) returns (replies: seq<Reply<bool>>)
    requires multiset(events) == multiset(LevelRemoval(es, folder))
    ensures OksOf(replies) == if Plain(DirNode(es)) then [true] else []
    ensures multiset(FailuresOf(replies)) == multiset(FailuresOf(RemoveLevel(es, folder)))
  {
    var out := Gather(|es|, true, events);
    replies := Settle(out, Removed);
    RemovalSettles(es, folder, events, out);
  }

  /** The completion callback of a directory's `remove`: `rmdir` has
      succeeded. */
  const Removed: map<string, bool> -> bool := (h: map<string, bool>) => true

  /** The counter's outcomes, turned into callback calls, are those of
      `RemoveLevel` up to arrival order. */
  lemma RemovalSettles(es: seq<Entry>, folder: string, events: seq<Signal<bool>>, out: seq<Outcome<bool>>)
    requires multiset(events) == multiset(LevelRemoval(es, folder))
    requires Forwarded(out) == Failures(events)
    requires |Completions(out)| == if Fires(|es|, true, |Dones(events)|) then 1 else 0
    ensures OksOf(Settle(out, Removed)) == if Plain(DirNode(es)) then [true] else []
    ensures multiset(FailuresOf(Settle(out, Removed))) == multiset(FailuresOf(RemoveLevel(es, folder)))
  {
    RemovalForwards(es, folder, events, out);
    RemovalCompletes(es, folder, events, out);
  }

  lemma RemovalForwards(es: seq<Entry>, folder: string, events: seq<Signal<bool>>, out: seq<Outcome<bool>>)
    requires multiset(events) == multiset(LevelRemoval(es, folder))
    requires Forwarded(out) == Failures(events)
    ensures multiset(FailuresOf(Settle(out, Removed))) == multiset(FailuresOf(RemoveLevel(es, folder)))
  {
    SettleParts(out, Removed);
    RemoveLevelFacts(es, folder);
    PermutedFailures(events, LevelRemoval(es, folder));
  }

  lemma RemovalCompletes(es: seq<Entry>, folder: string, events: seq<Signal<bool>>, out: seq<Outcome<bool>>)
    requires multiset(events) == multiset(LevelRemoval(es, folder))
    requires |Completions(out)| == if Fires(|es|, true, |Dones(events)|) then 1 else 0
    ensures OksOf(Settle(out, Removed)) == if Plain(DirNode(es)) then [true] else []
  {
    SettleParts(out, Removed);
    PermutedDones(events, LevelRemoval(es, folder));
    LevelRemovalFacts(es, folder);
    var oks := OksOf(Settle(out, Removed));
    if Plain(DirNode(es)) {
      assert |oks| == 1 && oks[0] == true;
    }
  }

  /** What `remove` leaves behind: files are unlinked, and a directory is
      removed when everything in it was; entries that fail their `stat` or
      are neither file nor directory stay, and so do the directories that
      hold them. */
  function Residue(n: Node): (r: Option<Node>)
    ensures n.FileNode? ==> r.None?
    ensures r.Some? ==> !r.value.FileNode?
    ensures r.Some? ==> (r.value.Absent? <==> n.Absent?) && (r.value.DirNode? <==> n.DirNode?)
  {
    match n
    case FileNode(_) => None
    case DirNode(es) => if Kept(es) == [] then None else Some(DirNode(Kept(es)))
    case _ => Some(n)
  }

  /** `remove` leaves nothing exactly when everything was a file or a
      directory, and what it leaves is never such a tree. */
  lemma {:induction false} ResidueFacts(n: Node)
    ensures Residue(n).None? <==> Plain(n)
    ensures Residue(n).Some? ==> !Plain(Residue(n).value)
    decreases n
  {
    match n
    case DirNode(es) =>
      PlainKept(es);
      if Kept(es) != [] {
        assert !Plain(Kept(es)[0].node);
      }
    case _ =>
  }

  /** The entries of a directory that survive `remove`, as they are left. */
  function Kept(es: seq<Entry>): seq<Entry>
  {
    if es == [] then []
    else
      var head := Residue(es[0].node);
      (if head.Some? then [Entry(es[0].name, head.value)] else []) + Kept(es[1..])
  }

  lemma {:induction false} PlainKept(es: seq<Entry>)
    ensures Kept(es) == [] <==> Plain(DirNode(es))
    ensures forall i :: 0 <= i < |Kept(es)| ==> !Plain(Kept(es)[i].node)
    decreases es
  {
    if es != [] {
      PlainKept(es[1..]);
      PlainCons(es);
      ResidueFacts(es[0].node);
      var head := Residue(es[0].node);
      if head.Some? {
        assert Kept(es)[0].node == head.value;
        assert forall i :: 0 < i < |Kept(es)| ==> Kept(es)[i] == Kept(es[1..])[i - 1];
      } else {
        assert Kept(es) == Kept(es[1..]);
      }
    }
  }

  /** The number of `unlink` and `rmdir` calls `remove` makes. */
  function Deleted(n: Node): nat
  {
    match n
    case FileNode(_) => 1
    case DirNode(es) => DeletedAll(es) + (if Plain(n) then 1 else 0)
    case _ => 0
  }

  function DeletedAll(es: seq<Entry>): nat
  {
    if es == [] then 0 else Deleted(es[0].node) + DeletedAll(es[1..])
  }

  function CountOf(r: Option<Node>): nat
  {
    if r.Some? then Count(r.value) else 0
  }

  /** Every file and directory is either deleted or still there. */
  lemma {:induction false} RemovalConserves(n: Node)
    ensures Deleted(n) + CountOf(Residue(n)) == Count(n)
  {
    match n
    case DirNode(es) =>
      RemovalConservesAll(es);
      PlainKept(es);
    case _ =>
      ResidueFacts(n);
  }

  lemma {:induction false} RemovalConservesAll(es: seq<Entry>)
    ensures DeletedAll(es) + CountAll(Kept(es)) == CountAll(es)
  {
    if es != [] {
      RemovalConserves(es[0].node);
      RemovalConservesAll(es[1..]);
      var head := Residue(es[0].node);
      var first := if head.Some? then [Entry(es[0].name, head.value)] else [];
      CountAllConcat(first, Kept(es[1..]));
    }
  }

  lemma {:induction false} CountAllConcat(a: seq<Entry>, b: seq<Entry>)
    ensures CountAll(a + b) == CountAll(a) + CountAll(b)
  {
    if a != [] {
      assert (a + b)[0] == a[0] && (a + b)[1..] == a[1..] + b;
      CountAllConcat(a[1..], b);
      assert CountAll(a + b) == Count(a[0].node) + CountAll(a[1..] + b);
    } else {
      assert a + b == b;
    }
  }

  /** Removing a tree of files and directories deletes every node of it. */
  lemma PlainRemovedEntirely(n: Node)
    requires Plain(n)
    ensures Deleted(n) == Count(n)
  {
    RemovalConserves(n);
    ResidueFacts(n);
  }

  /** What a second `remove` finds. */
  function AfterRemoval(n: Node): Node
  {
    match Residue(n)
    case None => Absent
    case Some(r) => r
  }

  /** Once `remove` has succeeded, a second `remove` of the same path fails
      its `stat`. */
  lemma RemoveTwice(a: Address, node: Node)
    requires !IsNull(a) && OksOf(Remove(a, node)) == [true]
    ensures Remove(a, AfterRemoval(node)) == [Fail(StatFailed(a.path.value))]
  {
    RemoveOutcome(a, node);
    ResidueFacts(node);
  }

  /** Removing what a `remove` left removes nothing more. */
  lemma {:induction false} ResidueStable(n: Node)
    requires Residue(n).Some?
    ensures Residue(Residue(n).value) == Residue(n)
  {
    match n
    case DirNode(es) =>
      KeptStable(es);
    case _ =>
  }

  lemma {:induction false} KeptStable(es: seq<Entry>)
    ensures Kept(Kept(es)) == Kept(es)
  {
    if es != [] {
      KeptStable(es[1..]);
      var head := Residue(es[0].node);
      if head.Some? {
        ResidueStable(es[0].node);
        var k := Kept(es);
        assert k == [Entry(es[0].name, head.value)] + Kept(es[1..]);
        assert k[0] == Entry(es[0].name, head.value) && k[1..] == Kept(es[1..]);
        assert Residue(k[0].node) == head;
        assert Kept(k) == [Entry(es[0].name, head.value)] + Kept(k[1..]);
      } else {
        assert Kept(es) == Kept(es[1..]);
      }
    }
  }

  /** What `removeSynchronous` returns, or the exception it lets out. */
  datatype SyncOutcome = Returned(removed: bool) | Threw(error: Error)

  /** `removeSynchronous` below a non-null path, with what it leaves: a file
      is unlinked; a dangling entry makes `existsSync` false; anything else
      that is not a directory is left and reported removed; a directory has
      its entries removed in order until one throws, then `rmdirSync`
      throws unless all of them are gone. */
  function SyncSpec(n: Node, path: string): (r: (SyncOutcome, Option<Node>))
    ensures r.0 == Returned(false) <==> n.Absent?
    ensures r.1.None? ==> r.0 == Returned(true)
    ensures r.1.Some? ==> (r.1.value.DirNode? <==> n.DirNode?)
    decreases n
  {
    match n
    case FileNode(_) => (Returned(true), None)
    case Absent => (Returned(false), Some(Absent))
    case Special => (Returned(true), Some(Special))
    case DirNode(es) =>
      var loop := SyncEntries(es, path);
      var thrown, kept := loop.0, loop.1;
      if thrown.Some? then (Threw(thrown.value), Some(DirNode(kept)))
      else if kept == [] then (Returned(true), None)
      else (Threw(NotEmpty(path)), Some(DirNode(kept)))
  }

  /** The loop over a directory's entries: the first exception, if any, and
      the entries left. */
  function SyncEntries(es: seq<Entry>, folder: string): (Option<Error>, seq<Entry>)
    decreases es
  {
    if es == [] then (None, [])
    else
      var head := SyncSpec(es[0].node, Join(folder, es[0].name));
      var first := if head.1.Some? then [Entry(es[0].name, head.1.value)] else [];
      if head.0.Threw? then (Some(head.0.error), first + es[1..])
      else
        var rest := SyncEntries(es[1..], folder);
        (rest.0, first + rest.1)
  }

  /** The depth-first walk below a non-null path. */
  method RemoveTree(n: Node, path: string) returns (o: SyncOutcome, left: Option<Node>)
    ensures (o, left) == SyncSpec(n, path)
    decreases n
  {
    match n {
      case FileNode(_) =>
        o, left := Returned(true), None;
      case Absent =>
        o, left := Returned(false), Some(Absent);
      case Special =>
        o, left := Returned(true), Some(Special);
      case DirNode(es) =>
        var thrown, kept := RemoveEntries(es, path);
        if thrown.Some? {
          o, left := Threw(thrown.value), Some(DirNode(kept));
        } else if kept == [] {
          o, left := Returned(true), None;
        } else {
          o, left := Threw(NotEmpty(path)), Some(DirNode(kept));
        }
    }
  }

  /** The loop over the entries of one directory, stopped by the first
      exception. */
  method RemoveEntries(es: seq<Entry>, path: string) returns (thrown: Option<Error>, kept: seq<Entry>)
    ensures (thrown, kept) == SyncEntries(es, path)
    decreases es
  {
    kept := [];
    var i := 0;
    ghost var total := SyncEntries(es, path);
    assert es[i..] == es;
    while i < |es|
      invariant 0 <= i <= |es|
      invariant total.0 == SyncEntries(es[i..], path).0
      invariant total.1 == kept + SyncEntries(es[i..], path).1
    {
      var co, cleft := RemoveTree(es[i].node, Join(path, es[i].name));
      var first := if cleft.Some? then [Entry(es[i].name, cleft.value)] else [];
      SyncStep(es, i, path);
      if co.Threw? {
        Regroup(kept, first, es[i + 1..]);
        thrown, kept := Some(co.error), kept + first + es[i + 1..];
        return;
      }
      Regroup(kept, first, SyncEntries(es[i + 1..], path).1);
      kept := kept + first;
      i := i + 1;
    }
    assert es[i..] == [];
    assert kept + [] == kept;
    thrown := None;
  }

  /** One turn of the loop: the entry at `i` is walked, and either its
      exception ends the loop with everything after it still there, or the
      loop goes on with the next entry. */
  lemma SyncStep(es: seq<Entry>, i: nat, path: string)
    requires i < |es|
    ensures var head := SyncSpec(es[i].node, Join(path, es[i].name));
      var first := if head.1.Some? then [Entry(es[i].name, head.1.value)] else [];
      SyncEntries(es[i..], path) ==
        if head.0.Threw? then (Some(head.0.error), first + es[i + 1..])
        else (SyncEntries(es[i + 1..], path).0, first + SyncEntries(es[i + 1..], path).1)
  {
    assert es[i..][0] == es[i] && es[i..][1..] == es[i + 1..];
  }

  /** What the loop keeps can be grouped either way. */
  lemma Regroup(kept: seq<Entry>, first: seq<Entry>, rest: seq<Entry>)
    ensures kept + (first + rest) == kept + first + rest
  {
  }

  /** `removeSynchronous`: `false` for a null path. */
  method RemoveSynchronous(a: Address, n: Node) returns (o: SyncOutcome, left: Option<Node>)
    ensures IsNull(a) ==> o == Returned(false) && left == Some(n)
    ensures !IsNull(a) ==> (o, left) == SyncSpec(n, a.path.value)
  {
    if IsNull(a) {
      o, left := Returned(false), Some(n);
    } else {
      o, left := RemoveTree(n, a.path.value);
    }
  }

  /** A tree of files and directories is removed entirely, the walk
      returning `true`. */
  lemma {:induction false} SyncPlain(n: Node, path: string)
    requires Plain(n)
    ensures SyncSpec(n, path) == (Returned(true), None)
    decreases n
  {
    match n
    case FileNode(_) =>
    case DirNode(es) =>
      SyncPlainAll(es, path);
  }

  lemma {:induction false} SyncPlainAll(es: seq<Entry>, folder: string)
    requires Plain(DirNode(es))
    ensures SyncEntries(es, folder) == (None, [])
    decreases es
  {
    if es != [] {
      PlainCons(es);
      SyncPlain(es[0].node, Join(folder, es[0].name));
      SyncPlainAll(es[1..], folder);
      var rest := SyncEntries(es[1..], folder);
      assert rest.0 == None && rest.1 == [];
      assert SyncEntries(es, folder) == (rest.0, [] + rest.1);
      assert [] + rest.1 == [];
      assert SyncEntries(es, folder).0 == None;
      assert SyncEntries(es, folder).1 == [];
    }
  }

  /** On a directory, the walk returns only when everything in it is gone,
      and leaves something exactly when it throws. */
  lemma {:induction false} SyncDirectory(es: seq<Entry>, path: string)
    ensures SyncSpec(DirNode(es), path).0.Returned? <==> SyncSpec(DirNode(es), path).1.None?
    ensures SyncSpec(DirNode(es), path).0 == Returned(true) <==> Plain(DirNode(es))
  {
    if Plain(DirNode(es)) {
      SyncPlain(DirNode(es), path);
    } else {
      SyncLeavesNonPlain(es, path);
    }
  }

  /** If some entry is not a file or directory, something is left. */
  lemma {:induction false} SyncLeavesNonPlain(es: seq<Entry>, folder: string)
    requires !Plain(DirNode(es))
    ensures SyncEntries(es, folder).0.Some? || SyncEntries(es, folder).1 != []
    decreases es
  {
    PlainCons(es);
    if !Plain(es[0].node) {
      SyncNonPlain(es[0].node, Join(folder, es[0].name));
    } else {
      SyncPlain(es[0].node, Join(folder, es[0].name));
      SyncLeavesNonPlain(es[1..], folder);
    }
  }

  lemma {:induction false} SyncNonPlain(n: Node, path: string)
    requires !Plain(n)
    ensures SyncSpec(n, path).0.Threw? || SyncSpec(n, path).1.Some?
    decreases n
  {
    match n
    case DirNode(es) =>
      SyncLeavesNonPlain(es, path);
    case _ =>
  }

  /** On a directory, the walk returns `true` exactly when `remove` reports
      success. */
  lemma SyncAgreesWithRemove(a: Address, es: seq<Entry>)
    requires !IsNull(a)
    ensures SyncSpec(DirNode(es), a.path.value).0 == Returned(true) <==> OksOf(Remove(a, DirNode(es))) == [true]
  {
    SyncDirectory(es, a.path.value);
    RemoveOutcome(a, DirNode(es));
  }
}
