/**
 * The abstract file system the recursive operations of `File` run against:
 * what `FS.stat` and `FS.readdir` report below one path.
 */
module Tree {
  import opened Paths

  /** What `FS.stat` finds at a name. A directory lists its entries in
      `readdir` order. `Special` is anything `stat` reports as neither a file
      nor a directory (a FIFO, a socket, a device); `Absent` is a name whose
      `stat` fails (nothing there, or a dangling symbolic link that `readdir`
      still lists). */
  datatype Node =
    | FileNode(size: nat)
    | DirNode(entries: seq<Entry>)
    | Special
    | Absent

  datatype Entry = Entry(name: string, node: Node)

  /** No two entries of one directory share a name. */
  predicate DistinctNames(es: seq<Entry>)
  {
    forall i, j :: 0 <= i < j < |es| ==> es[i].name != es[j].name
  }

  /** Names within one directory are distinct, non-empty and free of
      separators, at every depth. */
  predicate WellFormed(n: Node)
  {
    match n
    case DirNode(es) =>
      && DistinctNames(es)
      && (forall i :: 0 <= i < |es| ==> es[i].name != "" && Sep !in es[i].name && WellFormed(es[i].node))
    case _ => true
  }

  /** Only files and directories, at every depth: nothing a `stat` fails on
      and nothing that is neither. */
  predicate Plain(n: Node)
  {
    match n
    case FileNode(_) => true
    case DirNode(es) => forall i :: 0 <= i < |es| ==> Plain(es[i].node)
    case _ => false
  }

  /** Nothing at any depth fails its `stat`. */
  predicate NoDangling(n: Node)
  {
    match n
    case Absent => false
    case DirNode(es) => forall i :: 0 <= i < |es| ==> NoDangling(es[i].node)
    case _ => true
  }

  /** A directory is plain when its first entry and the rest are. */
  lemma PlainCons(es: seq<Entry>)
    requires es != []
    ensures Plain(DirNode(es)) <==> Plain(es[0].node) && Plain(DirNode(es[1..]))
  {
    assert forall i :: 0 < i < |es| ==> es[i] == es[1..][i - 1];
  }

  lemma NoDanglingCons(es: seq<Entry>)
    requires es != []
    ensures NoDangling(DirNode(es)) <==> NoDangling(es[0].node) && NoDangling(DirNode(es[1..]))
  {
    assert forall i :: 0 < i < |es| ==> es[i] == es[1..][i - 1];
  }

  /** How many entries, at any depth, fail their `stat`. */
  function Dangling(n: Node): nat
  {
    match n
    case Absent => 1
    case DirNode(es) => DanglingAll(es)
    case _ => 0
  }

  function DanglingAll(es: seq<Entry>): nat
  {
    if es == [] then 0 else Dangling(es[0].node) + DanglingAll(es[1..])
  }

  /** Every directory, at every depth, has at least one entry. */
  predicate NoEmptyDirectory(n: Node)
  {
    match n
    case DirNode(es) => |es| > 0 && forall i :: 0 <= i < |es| ==> NoEmptyDirectory(es[i].node)
    case _ => true
  }

  /** The number of files and directories in a tree, the root included. */
  function Count(n: Node): nat
  {
    match n
    case DirNode(es) => 1 + CountAll(es)
    case _ => 1
  }

  function CountAll(es: seq<Entry>): nat
  {
    if es == [] then 0 else Count(es[0].node) + CountAll(es[1..])
  }

  /** A tree of files and directories has nothing dangling. */
  lemma {:induction false} PlainNoDangling(n: Node)
    requires Plain(n)
    ensures NoDangling(n)
  {
    match n
    case DirNode(es) =>
      forall i | 0 <= i < |es| ensures NoDangling(es[i].node) {
        PlainNoDangling(es[i].node);
      }
    case _ =>
  }
}
