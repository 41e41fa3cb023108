/**
 * `File.prototype.list` and `listFiles` (src/file-utils.js:419-527): the
 * nested holder `list` builds below a directory, and the callback calls it
 * makes. Each directory level is a `search` step: `readdir`, the optional
 * name filter, then one `stat` per surviving entry feeding the level's
 * completion counter.
 *
 * `Level` is the reference definition of one level's callback calls, with
 * the errors first and the completion last; the order in which they really
 * arrive is whatever the children's completion order makes it, and
 * `ListLevel` shows that the counter produces the same calls for every
 * arrival order.
 */
module Listing {
  import opened Base
  import opened Paths
  import opened Tree
  import opened FanIn

  /** A value of the holder: a file's path, or the holder of a sub-directory. */
  datatype Item = Leaf(path: string) | Folder(items: map<string, Item>)

  /** The optional `filter (name, path)` argument. */
  type Filter = Option<(string, string) -> bool>

  predicate Accepts(filter: Filter, name: string, path: string)
  {
    filter.None? || filter.value(name, path)
  }

  /** The entries of one directory the filter keeps, in `readdir` order. */
  function Survivors(es: seq<Entry>, folder: string, filter: Filter): (r: seq<Entry>)
    ensures |r| <= |es|
  {
    if es == [] then []
    else
      (if Accepts(filter, es[0].name, Join(folder, es[0].name)) then [es[0]] else [])
        + Survivors(es[1..], folder, filter)
  }

  /** The filter keeps exactly the entries it accepts. */
  lemma {:induction false} SurvivorsMembers(es: seq<Entry>, folder: string, filter: Filter)
    ensures forall e :: e in Survivors(es, folder, filter) <==> e in es && Accepts(filter, e.name, Join(folder, e.name))
  {
    if es != [] {
      SurvivorsMembers(es[1..], folder, filter);
      assert es == [es[0]] + es[1..];
    }
  }

  lemma {:induction false} SurvivorsSnoc(es: seq<Entry>, e: Entry, folder: string, filter: Filter)
    ensures Survivors(es + [e], folder, filter) ==
      Survivors(es, folder, filter) + (if Accepts(filter, e.name, Join(folder, e.name)) then [e] else [])
  {
    if es != [] {
      assert (es + [e])[1..] == es[1..] + [e];
      SurvivorsSnoc(es[1..], e, folder, filter);
    }
  }

  /** `applyFilter`: the loop that keeps the entries the filter accepts. */
  method ApplyFilter(es: seq<Entry>, folder: string, filter: (string, string) -> bool) returns (kept: seq<Entry>)
    ensures kept == Survivors(es, folder, Some(filter))
  {
    kept := [];
    var i := 0;
    while i < |es|
      invariant 0 <= i <= |es|
      invariant kept == Survivors(es[..i], folder, Some(filter))
    {
      SurvivorsSnoc(es[..i], es[i], folder, Some(filter));
      assert es[..i + 1] == es[..i] + [es[i]];
      if filter(es[i].name, Join(folder, es[i].name)) {
        kept := kept + [es[i]];
      }
      i := i + 1;
    }
    assert es[..i] == es;
  }

  /** What the `stat` callback of one surviving entry reports to the level's
      counter: a file's joined path, a stat error, nothing for an entry that is
      neither file nor directory, or whatever the sub-directory's own `search`
      reports. */
  function EntrySignals(name: string, node: Node, folder: string, filter: Filter): seq<Signal<Item>>
    decreases node
  {
    var path := Join(folder, name);
    match node
    case FileNode(_) => [Done(name, Leaf(path))]
    case Absent => [Failed(StatFailed(path))]
    case Special => []
    case DirNode(sub) => Relay(name, Level(sub, path, filter), AsFolder)
  }

  /** A sub-directory's holder, as its parent keeps it. */
  function AsFolder(h: map<string, Item>): Item
  {
    Folder(h)
  }

  /** The reports of all surviving entries of one directory. */
  function LevelSignals(es: seq<Entry>, folder: string, filter: Filter): seq<Signal<Item>>
    decreases es, 0
  {
    if es == [] then []
    else
      (if Accepts(filter, es[0].name, Join(folder, es[0].name)) then EntrySignals(es[0].name, es[0].node, folder, filter) else [])
        + LevelSignals(es[1..], folder, filter)
  }

  /** The callback calls of `search` on one directory: each error once, and
      the holder when `done` reaches the number of surviving entries (at once
      when none survive). */
  function Level(es: seq<Entry>, folder: string, filter: Filter): (r: seq<Reply<map<string, Item>>>)
    ensures |OksOf(r)| <= 1
    ensures es == [] ==> r == [Ok(map[])]
    decreases es, 1
  {
    var sigs := LevelSignals(es, folder, filter);
    var fires := Fires(|Survivors(es, folder, filter)|, true, |Dones(sigs)|);
    ErrorsThenResult(Failures(sigs), fires, Collect(Dones(sigs)));
    FailAll(Failures(sigs)) + (if fires then [Ok(Collect(Dones(sigs)))] else [])
  }

  /** `File.prototype.list` with a callback, on the node the file system has
      at the file's path: nothing for a null path, the stat error, the
      not-a-directory error for a file, nothing for anything else that is
      not a directory. */
  function List(a: Address, node: Node, filter: Filter): (rs: seq<Reply<map<string, Item>>>)
    ensures IsNull(a) ==> rs == []
    ensures !IsNull(a) && node.Absent? ==> rs == [Fail(StatFailed(a.path.value))]
    ensures !IsNull(a) && node.FileNode? ==> rs == [Fail(NotADirectory)]
    ensures node.Special? ==> rs == []
  {
    if IsNull(a) then []
    else
      match node
      case Absent => [Fail(StatFailed(a.path.value))]
      case FileNode(_) => [Fail(NotADirectory)]
      case Special => []
      case DirNode(es) => Level(es, a.path.value, filter)
  }

  /** Every surviving entry, at every depth below a surviving directory, is a
      file or a directory. */
  predicate Clean(es: seq<Entry>, folder: string, filter: Filter)
    decreases es, 0
  {
    es == [] ||
      ((!Accepts(filter, es[0].name, Join(folder, es[0].name)) || CleanNode(es[0].node, Join(folder, es[0].name), filter))
        && Clean(es[1..], folder, filter))
  }

  predicate CleanNode(node: Node, path: string, filter: Filter)
    decreases node
  {
    match node
    case FileNode(_) => true
    case DirNode(sub) => Clean(sub, path, filter)
    case _ => false
  }

  /** No surviving entry, at any depth below a surviving directory, fails its `stat`. */
  predicate Unbroken(es: seq<Entry>, folder: string, filter: Filter)
    decreases es, 0
  {
    es == [] ||
      ((!Accepts(filter, es[0].name, Join(folder, es[0].name)) || UnbrokenNode(es[0].node, Join(folder, es[0].name), filter))
        && Unbroken(es[1..], folder, filter))
  }

  predicate UnbrokenNode(node: Node, path: string, filter: Filter)
    decreases node
  {
    match node
    case Absent => false
    case DirNode(sub) => Unbroken(sub, path, filter)
    case _ => true
  }

  /** The holder `list` fills: each surviving entry under its name,
      a file as its joined path, a directory as its own holder. */
  function Expected(es: seq<Entry>, folder: string, filter: Filter): map<string, Item>
    decreases es, 1
  {
    Collect(ExpectedPairs(es, folder, filter))
  }

  function ExpectedPairs(es: seq<Entry>, folder: string, filter: Filter): seq<(string, Item)>
    decreases es, 0
  {
    if es == [] then []
    else
      (if Accepts(filter, es[0].name, Join(folder, es[0].name))
       then [(es[0].name, ItemOf(es[0].node, Join(folder, es[0].name), filter))] else [])
        + ExpectedPairs(es[1..], folder, filter)
  }

  /** What the holder keeps for one entry found clean. */
  function ItemOf(node: Node, path: string, filter: Filter): Item
    decreases node
  {
    match node
    case DirNode(sub) => Folder(Expected(sub, path, filter))
    case _ => Leaf(path)
  }

  /** One entry reports at most one success, and exactly one, carrying what
      the holder should keep, when it is clean; it reports no error exactly
      when nothing below it fails its `stat`. */
  lemma {:induction false} EntryFacts(name: string, node: Node, folder: string, filter: Filter)
    ensures var sigs := EntrySignals(name, node, folder, filter); var path := Join(folder, name);
      && |Dones(sigs)| <= 1
      && (|Dones(sigs)| == 1 <==> CleanNode(node, path, filter))
      && (CleanNode(node, path, filter) ==> Dones(sigs) == [(name, ItemOf(node, path, filter))])
      && (Failures(sigs) == [] <==> UnbrokenNode(node, path, filter))
    decreases node
  {
    var path := Join(folder, name);
    match node
    case DirNode(sub) =>
      LevelFacts(sub, path, filter);
      LevelSignalsFacts(sub, path, filter);
      RelayedFolder(name, Level(sub, path, filter), Clean(sub, path, filter), Expected(sub, path, filter));
    case _ =>
      LeafFacts(name, node, folder, filter);
  }

  /** An entry that is not a directory reports its path, its `stat` error,
      or nothing. */
  lemma LeafFacts(name: string, node: Node, folder: string, filter: Filter)
    requires !node.DirNode?
    ensures var sigs := EntrySignals(name, node, folder, filter); var path := Join(folder, name);
      && |Dones(sigs)| <= 1
      && (|Dones(sigs)| == 1 <==> CleanNode(node, path, filter))
      && (CleanNode(node, path, filter) ==> Dones(sigs) == [(name, ItemOf(node, path, filter))])
      && (Failures(sigs) == [] <==> UnbrokenNode(node, path, filter))
  {
    var sigs := EntrySignals(name, node, folder, filter);
    if sigs != [] {
      assert sigs[..0] == [];
    }
  }

  /** A sub-directory's replies as its parent counts them: one success under
      its name, holding its holder, exactly when it completed. */
  lemma RelayedFolder(name: string, rs: seq<Reply<map<string, Item>>>, clean: bool, expected: map<string, Item>)
    requires OksOf(rs) == if clean then [expected] else []
    ensures var sigs := Relay(name, rs, AsFolder);
      && |Dones(sigs)| <= 1
      && (|Dones(sigs)| == 1 <==> clean)
      && (clean ==> Dones(sigs) == [(name, Folder(expected))])
      && Failures(sigs) == FailuresOf(rs)
  {
    RelayParts(name, rs, AsFolder);
  }

  /** The reports of one directory level, summed over its surviving entries. */
  lemma {:induction false} LevelSignalsFacts(es: seq<Entry>, folder: string, filter: Filter)
    ensures var sigs := LevelSignals(es, folder, filter); var n := |Survivors(es, folder, filter)|;
      && |Dones(sigs)| <= n
      && (|Dones(sigs)| == n <==> Clean(es, folder, filter))
      && (Clean(es, folder, filter) ==> Dones(sigs) == ExpectedPairs(es, folder, filter))
      && (Failures(sigs) == [] <==> Unbroken(es, folder, filter))
    decreases es, 0
  {
    if es != [] {
      var e := es[0];
      var path := Join(folder, e.name);
      var head := if Accepts(filter, e.name, path) then EntrySignals(e.name, e.node, folder, filter) else [];
      var tail := LevelSignals(es[1..], folder, filter);
      LevelSignalsFacts(es[1..], folder, filter);
      EntryFacts(e.name, e.node, folder, filter);
      DonesConcat(head, tail);
      FailuresConcat(head, tail);
    }
  }

  /** One level completes, once and with the promised holder, exactly when
      it is clean; its errors are those of its entries. */
  lemma {:induction false} LevelFacts(es: seq<Entry>, folder: string, filter: Filter)
    ensures OksOf(Level(es, folder, filter)) ==
      if Clean(es, folder, filter) then [Expected(es, folder, filter)] else []
    ensures FailuresOf(Level(es, folder, filter)) == Failures(LevelSignals(es, folder, filter))
    decreases es, 1
  {
    var sigs := LevelSignals(es, folder, filter);
    var fires := Fires(|Survivors(es, folder, filter)|, true, |Dones(sigs)|);
    LevelSignalsFacts(es, folder, filter);
    ErrorsThenResult(Failures(sigs), fires, Collect(Dones(sigs)));
    assert fires <==> Clean(es, folder, filter);
  }

  /** A directory none of whose entries survives the filter completes at
      once with the empty holder. */
  lemma EmptyLevel(es: seq<Entry>, folder: string, filter: Filter)
    requires Survivors(es, folder, filter) == []
    ensures Level(es, folder, filter) == [Ok(map[])]
  {
    LevelSignalsFacts(es, folder, filter);
    assert Failures(LevelSignals(es, folder, filter)) == [] by {
      NoSurvivorsNoSignals(es, folder, filter);
    }
  }

  lemma {:induction false} NoSurvivorsNoSignals(es: seq<Entry>, folder: string, filter: Filter)
    requires Survivors(es, folder, filter) == []
    ensures LevelSignals(es, folder, filter) == []
  {
    if es != [] {
      assert es[0] in es;
      NoSurvivorsNoSignals(es[1..], folder, filter);
    }
  }

  /** An entry the filter rejects is never probed: whatever is at its name,
      the level reports the same. */
  lemma {:induction false} RejectedIgnored(es: seq<Entry>, folder: string, filter: Filter, i: nat, other: Node)
    requires i < |es| && !Accepts(filter, es[i].name, Join(folder, es[i].name))
    ensures Level(es[i := Entry(es[i].name, other)], folder, filter) == Level(es, folder, filter)
  {
    RejectedIgnoredSignals(es, folder, filter, i, other);
  }

  lemma {:induction false} RejectedIgnoredSignals(es: seq<Entry>, folder: string, filter: Filter, i: nat, other: Node)
    requires i < |es| && !Accepts(filter, es[i].name, Join(folder, es[i].name))
    ensures LevelSignals(es[i := Entry(es[i].name, other)], folder, filter) == LevelSignals(es, folder, filter)
    ensures Survivors(es[i := Entry(es[i].name, other)], folder, filter) == Survivors(es, folder, filter)
  {
    var es' := es[i := Entry(es[i].name, other)];
    if i > 0 {
      assert es'[1..] == es[1..][i - 1 := Entry(es[i].name, other)];
      RejectedIgnoredSignals(es[1..], folder, filter, i - 1, other);
    } else {
      assert es'[1..] == es[1..];
    }
  }

  /** The names the holder is filled with come from the directory's entries. */
  lemma {:induction false} ExpectedPairsNames(es: seq<Entry>, folder: string, filter: Filter)
    ensures forall p :: p in ExpectedPairs(es, folder, filter) ==>
      (exists i :: 0 <= i < |es| && es[i].name == p.0 && Accepts(filter, p.0, Join(folder, p.0))
                      && p.1 == ItemOf(es[i].node, Join(folder, p.0), filter))
    ensures forall i :: 0 <= i < |es| && Accepts(filter, es[i].name, Join(folder, es[i].name)) ==>
      (es[i].name, ItemOf(es[i].node, Join(folder, es[i].name), filter)) in ExpectedPairs(es, folder, filter)
  {
    if es != [] {
      ExpectedPairsNames(es[1..], folder, filter);
      forall p | p in ExpectedPairs(es, folder, filter)
        ensures (exists i :: 0 <= i < |es| && es[i].name == p.0 && Accepts(filter, p.0, Join(folder, p.0))
                                && p.1 == ItemOf(es[i].node, Join(folder, p.0), filter))
      {
        if p !in ExpectedPairs(es[1..], folder, filter) {
          assert es[0].name == p.0;
        } else {
          var j :| 0 <= j < |es[1..]| && es[1..][j].name == p.0 && Accepts(filter, p.0, Join(folder, p.0))
            && p.1 == ItemOf(es[1..][j].node, Join(folder, p.0), filter);
          assert es[j + 1] == es[1..][j];
        }
      }
      forall i | 0 <= i < |es| && Accepts(filter, es[i].name, Join(folder, es[i].name))
        ensures (es[i].name, ItemOf(es[i].node, Join(folder, es[i].name), filter)) in ExpectedPairs(es, folder, filter)
      {
        if i > 0 {
          assert es[i] == es[1..][i - 1];
        }
      }
    }
  }

  /** The names of a directory's entries. */
  function NameSet(es: seq<Entry>): set<string>
  {
    set e | e in es :: e.name
  }

  lemma {:induction false} ExpectedKeysNamed(es: seq<Entry>, folder: string, filter: Filter)
    ensures forall p :: p in ExpectedPairs(es, folder, filter) ==> p.0 in NameSet(es)
  {
    if es != [] {
      ExpectedKeysNamed(es[1..], folder, filter);
      assert es[0] in es;
      forall e | e in es[1..] ensures e in es { }
    }
  }

  lemma ConsDistinct<T>(p: (string, T), rest: seq<(string, T)>)
    requires DistinctKeys(rest)
    requires forall q :: q in rest ==> q.0 != p.0
    ensures DistinctKeys([p] + rest)
  {
    var ps := [p] + rest;
    forall i, j | 0 <= i < j < |ps| ensures ps[i].0 != ps[j].0 {
      assert ps[j] == rest[j - 1] && ps[j] in rest;
      if i > 0 {
        assert ps[i] == rest[i - 1];
      }
    }
  }

  /** Distinct entry names give distinct holder keys. */
  lemma {:induction false} ExpectedPairsDistinct(es: seq<Entry>, folder: string, filter: Filter)
    requires DistinctNames(es)
    ensures DistinctKeys(ExpectedPairs(es, folder, filter))
  {
    if es != [] {
      var rest := ExpectedPairs(es[1..], folder, filter);
      assert DistinctNames(es[1..]) by {
        forall i, j | 0 <= i < j < |es[1..]| ensures es[1..][i].name != es[1..][j].name {
          assert es[1..][i] == es[i + 1] && es[1..][j] == es[j + 1];
        }
      }
      assert es[0].name !in NameSet(es[1..]) by {
        forall e | e in es[1..] ensures e.name != es[0].name {
          var k :| 0 <= k < |es[1..]| && es[1..][k] == e;
          assert es[k + 1] == e;
        }
      }
      ExpectedPairsDistinct(es[1..], folder, filter);
      ExpectedKeysNamed(es[1..], folder, filter);
      if Accepts(filter, es[0].name, Join(folder, es[0].name)) {
        ConsDistinct((es[0].name, ItemOf(es[0].node, Join(folder, es[0].name), filter)), rest);
      }
    }
  }

  /** The holder of a clean level: exactly the surviving entries, each under
      its own name, a file mapped to its joined path and a directory to the
      holder built for it. */
  lemma ExpectedContents(es: seq<Entry>, folder: string, filter: Filter)
    requires DistinctNames(es)
    ensures var h := Expected(es, folder, filter);
      && (forall i :: 0 <= i < |es| && Accepts(filter, es[i].name, Join(folder, es[i].name)) ==>
            es[i].name in h && h[es[i].name] == ItemOf(es[i].node, Join(folder, es[i].name), filter))
      && (forall k :: k in h ==> exists i :: 0 <= i < |es| && es[i].name == k && Accepts(filter, k, Join(folder, k)))
  {
    var ps := ExpectedPairs(es, folder, filter);
    ExpectedPairsNames(es, folder, filter);
    ExpectedPairsDistinct(es, folder, filter);
    CollectDistinct(ps);
    forall i | 0 <= i < |es| && Accepts(filter, es[i].name, Join(folder, es[i].name))
      ensures es[i].name in Collect(ps) && Collect(ps)[es[i].name] == ItemOf(es[i].node, Join(folder, es[i].name), filter)
    {
      var p := (es[i].name, ItemOf(es[i].node, Join(folder, es[i].name), filter));
      var a :| 0 <= a < |ps| && ps[a] == p;
    }
    forall k | k in Collect(ps) ensures exists i :: 0 <= i < |es| && es[i].name == k && Accepts(filter, k, Join(folder, k)) {
      var a :| 0 <= a < |ps| && ps[a].0 == k;
      assert ps[a] in ps;
    }
  }

  /** One `search` level as the source runs it: the filter loop, then the
      counter fed the children's reports in any arrival order. Whatever the
      order, the callback receives the same errors, and the holder exactly
      once, and only when every surviving entry below is a file or a
      directory. */
  method ListLevel(es: seq<Entry>, folder: string, filter: Filter, events: seq<Signal<Item>>)
    returns (replies: seq<Reply<map<string, Item>>>)
    requires DistinctNames(es)
    requires multiset(events) == multiset(LevelSignals(es, folder, filter))
    ensures OksOf(replies) == if Clean(es, folder, filter) then [Expected(es, folder, filter)] else []
    ensures multiset(FailuresOf(replies)) == multiset(FailuresOf(Level(es, folder, filter)))
  {
    var kept := es;
    if filter.Some? {
      kept := ApplyFilter(es, folder, filter.value);
    } else {
      AllSurvive(es, folder);
    }
    var out := Gather(|kept|, true, events);
    replies := Settle(out, (h: map<string, Item>) => h);
    SettleParts(out, (h: map<string, Item>) => h);
    assert OksOf(replies) == Completions(out);
    CounterForwards(es, folder, filter, events, out);
    CounterCompletes(es, folder, filter, events, out);
  }

  /** The errors the counter passes on are those of `Level`. */
  lemma CounterForwards(es: seq<Entry>, folder: string, filter: Filter, events: seq<Signal<Item>>, out: seq<Outcome<Item>>)
    requires multiset(events) == multiset(LevelSignals(es, folder, filter))
    requires Forwarded(out) == Failures(events)
    ensures multiset(Forwarded(out)) == multiset(FailuresOf(Level(es, folder, filter)))
  {
    LevelFacts(es, folder, filter);
    PermutedFailures(events, LevelSignals(es, folder, filter));
  }

  /** The counter completes exactly when `Level` does, with the same holder. */
  lemma CounterCompletes(es: seq<Entry>, folder: string, filter: Filter, events: seq<Signal<Item>>, out: seq<Outcome<Item>>)
    requires DistinctNames(es)
    requires multiset(events) == multiset(LevelSignals(es, folder, filter))
    requires |Completions(out)| ==
      if Fires(|Survivors(es, folder, filter)|, true, |Dones(events)|) then 1 else 0
    requires forall h :: h in Completions(out) ==>
      |Survivors(es, folder, filter)| <= |Dones(events)| && h == Collect(Dones(events)[..|Survivors(es, folder, filter)|])
    ensures Completions(out) == if Clean(es, folder, filter) then [Expected(es, folder, filter)] else []
  {
    var sigs := LevelSignals(es, folder, filter);
    PermutedDones(events, sigs);
    LevelSignalsFacts(es, folder, filter);
    if Clean(es, folder, filter) {
      assert Completions(out)[0] in Completions(out);
      assert Dones(events)[..|Survivors(es, folder, filter)|] == Dones(events);
      ExpectedPairsDistinct(es, folder, filter);
      DistinctKeysFunctional(Dones(sigs));
      CollectPermuted(Dones(sigs), Dones(events));
    }
  }

  lemma {:induction false} AllSurvive(es: seq<Entry>, folder: string)
    ensures Survivors(es, folder, None) == es
  {
    if es != [] {
      AllSurvive(es[1..], folder);
    }
  }

  /** The holder once `listFiles` has rewritten it: every path a `File`. */
  datatype Listed = FileEntry(file: Address) | FolderEntry(items: map<string, Listed>)

  /** `listFiles`'s `replace` on one value, with the working directory's
      relation to the entry module fixed as `relative`. */
  function Converted(i: Item, relative: string): Listed
  {
    match i
    case Leaf(p) => FileEntry(MakeAddress(Some(p), relative))
    case Folder(m) => FolderEntry(map k | k in m :: Converted(m[k], relative))
  }

  /** The path a `File` of the rewritten holder stands for. */
  function Back(l: Listed): Item
  {
    match l
    case FileEntry(a) => Leaf(if a.path.Some? then a.path.value else "")
    case FolderEntry(m) => Folder(map k | k in m :: Back(m[k]))
  }

  /** Every path in a holder is one the `File` constructor keeps as it is. */
  predicate Keepable(i: Item)
  {
    match i
    case Leaf(p) => p != "" && p != "./" && p != "../"
    case Folder(m) => forall k :: k in m ==> Keepable(m[k])
  }

  /** Rewriting loses nothing: each `File` has the path it replaced. */
  lemma {:induction false} ConvertedRoundTrip(i: Item, relative: string)
    requires Keepable(i)
    ensures Back(Converted(i, relative)) == i
  {
    match i
    case Leaf(p) =>
    case Folder(m) =>
      forall k | k in m ensures Back(Converted(m[k], relative)) == m[k] {
        ConvertedRoundTrip(m[k], relative);
      }
      assert (map k | k in m :: Back(Converted(m[k], relative))) == m;
  }

  /** `replace`: the loop over a holder's keys that swaps each path for a
      `File` and descends into each sub-holder. */
  method Replace(folder: Item, relative: string) returns (r: map<string, Listed>)
    requires folder.Folder?
    ensures r == map k | k in folder.items :: Converted(folder.items[k], relative)
    decreases folder
  {
    r := map[];
    var keys := folder.items.Keys;
    while keys != {}
      invariant keys <= folder.items.Keys
      invariant r.Keys == folder.items.Keys - keys
      invariant forall k :: k in r ==> r[k] == Converted(folder.items[k], relative)
      decreases keys
    {
      var k :| k in keys;
      var item := folder.items[k];
      match item {
        case Leaf(p) =>
          r := r[k := FileEntry(MakeAddress(Some(p), relative))];
        case Folder(_) =>
          var sub := Replace(item, relative);
          r := r[k := FolderEntry(sub)];
      }
      keys := keys - {k};
    }
  }

  /** `File.prototype.listFiles`: `list`, with the holder rewritten on success. */
  function ListFiles(a: Address, node: Node, filter: Filter, relative: string): (rs: seq<Reply<map<string, Listed>>>)
    ensures |rs| == |List(a, node, filter)|
    ensures forall i :: 0 <= i < |rs| ==>
      (rs[i].Fail? <==> List(a, node, filter)[i].Fail?)
      && (rs[i].Fail? ==> rs[i].error == List(a, node, filter)[i].error)
      && (rs[i].Ok? ==> rs[i].value.Keys == List(a, node, filter)[i].value.Keys)
  {
    var ls := List(a, node, filter);
    seq(|ls|, i requires 0 <= i < |ls| =>
      match ls[i]
      case Fail(e) => Fail(e)
      case Ok(h) => Ok(map k | k in h :: Converted(h[k], relative)))
  }
}
