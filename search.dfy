/**
 * `File.prototype.search` and `contains` (src/file-utils.js:132-137,
 * 655-671): `search` runs `list` with a filter that records the path of
 * every entry whose name is the one sought and keeps every entry, so `list`
 * reads every directory below and the recorded paths are complete by the
 * time `list` completes.
 */
module Searching {
  import opened Base
  import opened Paths
  import opened Tree
  import opened FanIn
  import opened Listing

  /** The filter `search` hands to `list`: it never rejects. */
  const KeepAll: (string, string) -> bool := (name: string, path: string) => true

  /** The `(name, path)` pairs the filter is called with: every entry of each
      directory `list` reads, and below each surviving directory the calls of
      its own reading. */
  function FilterCalls(es: seq<Entry>, folder: string, filter: Filter): seq<(string, string)>
  {
    if es == [] then []
    else
      var path := Join(folder, es[0].name);
      [(es[0].name, path)]
        + (if Accepts(filter, es[0].name, path) && es[0].node.DirNode? then FilterCalls(es[0].node.entries, path, filter) else [])
        + FilterCalls(es[1..], folder, filter)
  }

  /** Every entry below a directory, at every depth, with its path. */
  function AllEntries(es: seq<Entry>, folder: string): seq<(string, string)>
  {
    if es == [] then []
    else
      var path := Join(folder, es[0].name);
      [(es[0].name, path)]
        + (if es[0].node.DirNode? then AllEntries(es[0].node.entries, path) else [])
        + AllEntries(es[1..], folder)
  }

  /** The paths of the entries named `target`, at any depth. */
  function Matches(es: seq<Entry>, folder: string, target: string): set<string>
  {
    set c | c in AllEntries(es, folder) && c.0 == target :: c.1
  }

  /** With a filter that keeps everything, `list` visits every entry at
      every depth, matched directories included. */
  lemma {:induction false} KeepAllVisitsAll(es: seq<Entry>, folder: string)
    ensures FilterCalls(es, folder, Some(KeepAll)) == AllEntries(es, folder)
  {
    if es != [] {
      var path := Join(folder, es[0].name);
      if es[0].node.DirNode? {
        KeepAllVisitsAll(es[0].node.entries, path);
      }
      KeepAllVisitsAll(es[1..], folder);
    }
  }

  /** `File.prototype.search`: `false` for a null path; otherwise each error
      of `list` passed on, and on completion the recorded paths. */
  function Search(a: Address, node: Node, target: string): (rs: seq<Reply<Option<set<string>>>>)
    ensures IsNull(a) ==> rs == [Ok(None)]
    ensures !IsNull(a) ==> |rs| == |List(a, node, Some(KeepAll))|
    ensures !IsNull(a) ==> forall i :: 0 <= i < |rs| ==>
      (rs[i].Fail? <==> List(a, node, Some(KeepAll))[i].Fail?)
      && (rs[i].Fail? ==> rs[i].error == List(a, node, Some(KeepAll))[i].error)
      && (rs[i].Ok? ==> rs[i].value.Some?)
  {
    if IsNull(a) then [Ok(None)]
    else
      var found := if node.DirNode? then set c | c in FilterCalls(node.entries, a.path.value, Some(KeepAll)) && c.0 == target :: c.1 else {};
      var ls := List(a, node, Some(KeepAll));
      seq(|ls|, i requires 0 <= i < |ls| =>
        match ls[i]
        case Fail(e) => Fail(e)
        case Ok(_) => Ok(Some(found)))
  }

  /** Only files and directories below: every filter leaves a clean,
      unbroken listing. */
  lemma {:induction false} PlainIsClean(es: seq<Entry>, folder: string, filter: Filter)
    requires Plain(DirNode(es))
    ensures Clean(es, folder, filter) && Unbroken(es, folder, filter)
  {
    if es != [] {
      assert Plain(DirNode(es[1..])) by {
        forall i | 0 <= i < |es[1..]| ensures Plain(es[1..][i].node) {
          assert es[1..][i] == es[i + 1];
        }
      }
      PlainIsClean(es[1..], folder, filter);
      var path := Join(folder, es[0].name);
      assert Plain(es[0].node);
      if es[0].node.DirNode? {
        PlainIsClean(es[0].node.entries, path, filter);
      }
    }
  }

  /** `list` on a directory of files and directories completes once and
      reports no error. */
  lemma ListPlain(a: Address, es: seq<Entry>, filter: Filter)
    requires !IsNull(a) && Plain(DirNode(es))
    ensures List(a, DirNode(es), filter) == [Ok(Expected(es, a.path.value, filter))]
  {
    var folder := a.path.value;
    var sigs := LevelSignals(es, folder, filter);
    PlainIsClean(es, folder, filter);
    LevelSignalsFacts(es, folder, filter);
    LevelFacts(es, folder, filter);
    assert FailAll<map<string, Item>>(Failures(sigs)) == [];
  }

  /** On a directory of files and directories, `search` reports once, with
      the path of every entry named `target` at any depth. */
  lemma SearchFindsAll(a: Address, es: seq<Entry>, target: string)
    requires !IsNull(a) && Plain(DirNode(es))
    ensures Search(a, DirNode(es), target) == [Ok(Some(Matches(es, a.path.value, target)))]
  {
    ListPlain(a, es, Some(KeepAll));
    KeepAllVisitsAll(es, a.path.value);
  }

  /** `contains`: the error passed on, or whether `search` found anything.
      `onFalse` is the answer for `search`'s `false` result. */
  function Answer(rs: seq<Reply<Option<set<string>>>>, onFalse: bool): (r: seq<Reply<bool>>)
    ensures |r| == |rs|
    ensures forall i :: 0 <= i < |rs| ==> match rs[i]
      case Fail(e) => r[i] == Fail(e)
      case Ok(None) => r[i] == Ok(onFalse)
      case Ok(Some(s)) => r[i] == Ok(s != {})
  {
    seq(|rs|, i requires 0 <= i < |rs| =>
      match rs[i]
      case Fail(e) => Fail(e)
      case Ok(None) => Ok(onFalse)
      case Ok(Some(s)) => Ok(|s| != 0))
  }

  /** `File.prototype.contains` as written: on a null path `search` yields
      `false`, and `false.length !== 0` holds, so the answer is `true`. */
  function ContainsAsWritten(a: Address, node: Node, target: string): (r: seq<Reply<bool>>)
    ensures IsNull(a) ==> r == [Ok(true)]
    ensures !IsNull(a) ==> r == Contains(a, node, target)
  {
    Answer(Search(a, node, target), true)
  }

  /** `contains` with a null path holding nothing: otherwise one answer per
      callback call of `list`, an error exactly where `list` gives one. */
  function Contains(a: Address, node: Node, target: string): (r: seq<Reply<bool>>)
    ensures IsNull(a) ==> r == [Ok(false)]
    ensures !IsNull(a) ==> |r| == |List(a, node, Some(KeepAll))|
    ensures !IsNull(a) ==> forall i :: 0 <= i < |r| ==>
      (r[i].Fail? <==> List(a, node, Some(KeepAll))[i].Fail?)
      && (r[i].Fail? ==> r[i].error == List(a, node, Some(KeepAll))[i].error)
  {
    Answer(Search(a, node, target), false)
  }

  /** A null path contains nothing, yet `contains` as written says it does. */
  lemma NullPathContains(relative: string, node: Node, target: string)
    ensures ContainsAsWritten(MakeAddress(None, relative), node, target) == [Ok(true)]
    ensures Contains(MakeAddress(None, relative), node, target) == [Ok(false)]
  {
  }

  /** On a directory of files and directories, `contains` answers whether
      some entry at any depth has the name sought. */
  lemma ContainsFinds(a: Address, es: seq<Entry>, target: string)
    requires !IsNull(a) && Plain(DirNode(es))
    ensures Contains(a, DirNode(es), target) ==
      [Ok(exists i :: 0 <= i < |AllEntries(es, a.path.value)| && AllEntries(es, a.path.value)[i].0 == target)]
  {
    var all := AllEntries(es, a.path.value);
    SearchFindsAll(a, es, target);
    var s := Matches(es, a.path.value, target);
    var r := Contains(a, DirNode(es), target);
    assert |r| == 1 && r[0] == Ok(s != {});
    if i :| 0 <= i < |all| && all[i].0 == target {
      assert all[i] in all && all[i].1 in s;
      assert r == [Ok(true)];
      assert exists j :: 0 <= j < |AllEntries(es, a.path.value)| && AllEntries(es, a.path.value)[j].0 == target;
    }
  }
}
