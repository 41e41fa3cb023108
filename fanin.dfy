/**
 * The completion counter that `list`, `remove` and `copy` each write out
 * (src/file-utils.js:181-194, 454-488, 594-619): `filesLen` children are
 * started, each reports back through its callback, an error is passed on to
 * the parent's callback at once, a success bumps `done`, and `finish ()`
 * fires the completion when `done === filesLen`. `list` and `remove` call
 * `finish ()` once before starting any child, so an empty directory
 * completes at once; `copy` does not.
 *
 * Children complete in no particular order: `Gather` takes the reports in
 * the order they arrive, whatever it is.
 */
module FanIn {
  import opened Base

  /** One child's report: success, with the child's name and result, or an error. */
  datatype Signal<T> = Done(name: string, value: T) | Failed(error: Error)

  /** What the counter passes on: an error, or completion with the holder
      filled in by the successful children. */
  datatype Outcome<T> = Forward(error: Error) | Complete(holder: map<string, T>)

  /** The errors among the reports, in order. */
  function Failures<T>(s: seq<Signal<T>>): seq<Error>
  {
    if s == [] then []
    else Failures(s[..|s| - 1]) + (if s[|s| - 1].Failed? then [s[|s| - 1].error] else [])
  }

  /** The successes among the reports, in order. */
  function Dones<T>(s: seq<Signal<T>>): seq<(string, T)>
  {
    if s == [] then []
    else Dones(s[..|s| - 1]) + (if s[|s| - 1].Done? then [(s[|s| - 1].name, s[|s| - 1].value)] else [])
  }

  /** `holder[name] = value` for each success in turn. */
  function Collect<T>(ds: seq<(string, T)>): map<string, T>
  {
    if ds == [] then map[] else Collect(ds[..|ds| - 1])[ds[|ds| - 1].0 := ds[|ds| - 1].1]
  }

  /** The errors passed on. */
  function Forwarded<T>(out: seq<Outcome<T>>): seq<Error>
  {
    if out == [] then []
    else Forwarded(out[..|out| - 1]) + (if out[|out| - 1].Forward? then [out[|out| - 1].error] else [])
  }

  /** The completions fired. */
  function Completions<T>(out: seq<Outcome<T>>): seq<map<string, T>>
  {
    if out == [] then []
    else Completions(out[..|out| - 1]) + (if out[|out| - 1].Complete? then [out[|out| - 1].holder] else [])
  }

  /** When the counter fires: at once for an empty directory if `finish ()`
      is called before the children start, otherwise when `done` reaches
      `filesLen`. */
  predicate Fires(filesLen: nat, checkFirst: bool, done: nat)
  {
    (checkFirst && filesLen == 0) || 0 < filesLen <= done
  }

  /** The counter, fed the children's reports in arrival order. Every error
      is passed on once, in arrival order; the completion fires at most once,
      exactly when `Fires` holds of the number of successes, with the holder
      of the first `filesLen` successes. */
  method Gather<T>(filesLen: nat, checkFirst: bool, events: seq<Signal<T>>) returns (out: seq<Outcome<T>>)
    ensures Forwarded(out) == Failures(events)
    ensures |Completions(out)| == if Fires(filesLen, checkFirst, |Dones(events)|) then 1 else 0
    ensures forall h :: h in Completions(out) ==> filesLen <= |Dones(events)| && h == Collect(Dones(events)[..filesLen])
  {
    var done := 0;
    var holder: map<string, T> := map[];
    out := [];
    if checkFirst && done == filesLen {
      out := [Complete(holder)];
    }
    CountedStart(filesLen, checkFirst, events, out);
    var i := 0;
    while i < |events|
      invariant 0 <= i <= |events|
      invariant Counted(filesLen, checkFirst, events[..i], done, holder, out)
    {
      assert events[..i + 1] == events[..i] + [events[i]];
      done, holder, out := Tally(filesLen, checkFirst, events[..i], events[i], done, holder, out);
      i := i + 1;
    }
    assert events[..i] == events;
    CountedResult(filesLen, checkFirst, events, done, holder, out);
  }

  /** Before any report the counter holds nothing, and has fired only for
      an empty directory checked first. */
  lemma CountedStart<T>(filesLen: nat, checkFirst: bool, events: seq<Signal<T>>, out: seq<Outcome<T>>)
    requires out == if checkFirst && filesLen == 0 then [Complete(map[])] else []
    ensures Counted(filesLen, checkFirst, events[..0], 0, map[], out)
  {
    assert events[..0] == [];
    if out != [] {
      OutcomeSnoc<T>([], Complete(map[]));
    }
  }

  /** After every report, the counter has passed on every error and fired as
      `Fires` says. */
  lemma CountedResult<T>(filesLen: nat, checkFirst: bool, events: seq<Signal<T>>,
                         done: nat, holder: map<string, T>, out: seq<Outcome<T>>)
    requires Counted(filesLen, checkFirst, events, done, holder, out)
    ensures Forwarded(out) == Failures(events)
    ensures |Completions(out)| == if Fires(filesLen, checkFirst, |Dones(events)|) then 1 else 0
    ensures forall h :: h in Completions(out) ==> filesLen <= |Dones(events)| && h == Collect(Dones(events)[..filesLen])
  {
  }

  /** What the counter holds after the reports `seen`: `done` successes, the
      holder they filled, every error passed on, and the completion if the
      count has reached `filesLen`. */
  ghost predicate Counted<T>(filesLen: nat, checkFirst: bool, seen: seq<Signal<T>>,
                             done: nat, holder: map<string, T>, out: seq<Outcome<T>>)
  {
    && done == |Dones(seen)|
    && holder == Collect(Dones(seen))
    && Forwarded(out) == Failures(seen)
    && Completions(out) == (if Fires(filesLen, checkFirst, done) then [Collect(Dones(seen)[..filesLen])] else [])
  }

  /** The counter's reaction to one report: an error is passed on; a success
      is written into the holder, bumps `done`, and fires the completion when
      `done` reaches `filesLen`. */
  method Tally<T>(filesLen: nat, checkFirst: bool, seen: seq<Signal<T>>, ev: Signal<T>,
                  done: nat, holder: map<string, T>, out: seq<Outcome<T>>)
    returns (done': nat, holder': map<string, T>, out': seq<Outcome<T>>)
    requires Counted(filesLen, checkFirst, seen, done, holder, out)
    ensures Counted(filesLen, checkFirst, seen + [ev], done', holder', out')
  {
    ReportSnoc(seen, ev);
    ghost var d0, d1 := Dones(seen), Dones(seen + [ev]);
    match ev {
    case Failed(e) =>
      OutcomeSnoc(out, Forward(e));
      done', holder', out' := done, holder, out + [Forward(e)];
      assert d1 == d0;
    case Done(name, v) =>
      assert d1 == d0 + [(name, v)];
      CollectSnoc(d0, (name, v));
      done', holder' := done + 1, holder[name := v];
      if done' == filesLen {
        OutcomeSnoc(out, Complete(holder'));
        out' := out + [Complete(holder')];
        assert d1[..filesLen] == d1;
      } else {
        out' := out;
        assert Fires(filesLen, checkFirst, done') == Fires(filesLen, checkFirst, done);
        if filesLen <= done {
          assert d1[..filesLen] == d0[..filesLen];
        }
      }
    }
  }

  /** One more report extends the errors or the successes by itself. */
  lemma ReportSnoc<T>(s: seq<Signal<T>>, ev: Signal<T>)
    ensures Failures(s + [ev]) == Failures(s) + (if ev.Failed? then [ev.error] else [])
    ensures Dones(s + [ev]) == Dones(s) + (if ev.Done? then [(ev.name, ev.value)] else [])
  {
    assert (s + [ev])[..|s|] == s;
  }

  /** One more success writes its name into the holder. */
  lemma CollectSnoc<T>(ds: seq<(string, T)>, p: (string, T))
    ensures Collect(ds + [p]) == Collect(ds)[p.0 := p.1]
  {
    assert (ds + [p])[..|ds|] == ds;
  }

  /** One more outcome extends the errors passed on or the completions by itself. */
  lemma OutcomeSnoc<T>(out: seq<Outcome<T>>, o: Outcome<T>)
    ensures Forwarded(out + [o]) == Forwarded(out) + (if o.Forward? then [o.error] else [])
    ensures Completions(out + [o]) == Completions(out) + (if o.Complete? then [o.holder] else [])
  {
    assert (out + [o])[..|out|] == out;
  }

  lemma {:induction false} FailuresConcat<T>(a: seq<Signal<T>>, b: seq<Signal<T>>)
    ensures Failures(a + b) == Failures(a) + Failures(b)
    decreases |b|
  {
    if b == [] {
      assert a + b == a;
    } else {
      FailuresConcat(a, b[..|b| - 1]);
      assert (a + b)[..|a + b| - 1] == a + b[..|b| - 1];
    }
  }

  lemma {:induction false} DonesConcat<T>(a: seq<Signal<T>>, b: seq<Signal<T>>)
    ensures Dones(a + b) == Dones(a) + Dones(b)
    decreases |b|
  {
    if b == [] {
      assert a + b == a;
    } else {
      DonesConcat(a, b[..|b| - 1]);
      assert (a + b)[..|a + b| - 1] == a + b[..|b| - 1];
    }
  }

  /** Each error is counted as often as it was reported. */
  lemma {:induction false} FailuresCount<T>(s: seq<Signal<T>>, e: Error)
    ensures multiset(Failures(s))[e] == multiset(s)[Failed(e)]
  {
    if s != [] {
      FailuresCount(s[..|s| - 1], e);
      assert s == s[..|s| - 1] + [s[|s| - 1]];
    }
  }

  /** Each success is counted as often as it was reported. */
  lemma {:induction false} DonesCount<T>(s: seq<Signal<T>>, p: (string, T))
    ensures multiset(Dones(s))[p] == multiset(s)[Done(p.0, p.1)]
  {
    if s != [] {
      DonesCount(s[..|s| - 1], p);
      assert s == s[..|s| - 1] + [s[|s| - 1]];
    }
  }

  /** The errors do not depend on the arrival order, only their order does. */
  lemma PermutedFailures<T>(a: seq<Signal<T>>, b: seq<Signal<T>>)
    requires multiset(a) == multiset(b)
    ensures multiset(Failures(a)) == multiset(Failures(b))
  {
    forall e ensures multiset(Failures(a))[e] == multiset(Failures(b))[e] {
      FailuresCount(a, e);
      FailuresCount(b, e);
    }
  }

  /** Every report is an error or a success. */
  lemma {:induction false} ReportsSplit<T>(s: seq<Signal<T>>)
    ensures |Failures(s)| + |Dones(s)| == |s|
  {
    if s != [] {
      ReportsSplit(s[..|s| - 1]);
    }
  }

  /** Nor do the successes: the same ones arrive, as many of them. */
  lemma PermutedDones<T>(a: seq<Signal<T>>, b: seq<Signal<T>>)
    requires multiset(a) == multiset(b)
    ensures |Dones(a)| == |Dones(b)|
    ensures forall p :: p in Dones(a) <==> p in Dones(b)
  {
    PermutedFailures(a, b);
    ReportsSplit(a);
    ReportsSplit(b);
    assert |a| == |multiset(a)| == |multiset(b)| == |b|;
    assert |Failures(a)| == |multiset(Failures(a))| == |multiset(Failures(b))| == |Failures(b)|;
    forall p ensures p in Dones(a) <==> p in Dones(b) {
      DonesCount(a, p);
      DonesCount(b, p);
      assert p in Dones(a) <==> multiset(Dones(a))[p] > 0;
      assert p in Dones(b) <==> multiset(Dones(b))[p] > 0;
    }
  }

  /** The holder has a key for each success and keeps one of its values. */
  lemma {:induction false} CollectContents<T>(ds: seq<(string, T)>)
    ensures forall p :: p in ds ==> p.0 in Collect(ds)
    ensures forall k :: k in Collect(ds) ==> (k, Collect(ds)[k]) in ds
  {
    if ds != [] {
      CollectContents(ds[..|ds| - 1]);
      assert ds == ds[..|ds| - 1] + [ds[|ds| - 1]];
    }
  }

  /** No name is reported with two different values. */
  ghost predicate Functional<T>(ds: seq<(string, T)>)
  {
    forall i, j :: 0 <= i < |ds| && 0 <= j < |ds| && ds[i].0 == ds[j].0 ==> ds[i].1 == ds[j].1
  }

  /** No name is reported twice. */
  ghost predicate DistinctKeys<T>(ds: seq<(string, T)>)
  {
    forall i, j :: 0 <= i < j < |ds| ==> ds[i].0 != ds[j].0
  }

  lemma DistinctKeysFunctional<T>(ds: seq<(string, T)>)
    requires DistinctKeys(ds)
    ensures Functional(ds)
  {
    forall i, j | 0 <= i < |ds| && 0 <= j < |ds| && ds[i].0 == ds[j].0 ensures ds[i].1 == ds[j].1 {
      if i < j {
      } else if j < i {
      }
    }
  }

  /** With distinct names, the holder keeps each reported value under its name. */
  lemma CollectDistinct<T>(ds: seq<(string, T)>)
    requires DistinctKeys(ds)
    ensures forall i :: 0 <= i < |ds| ==> ds[i].0 in Collect(ds) && Collect(ds)[ds[i].0] == ds[i].1
    ensures forall k :: k in Collect(ds) ==> exists i :: 0 <= i < |ds| && ds[i].0 == k
  {
    CollectContents(ds);
    DistinctKeysFunctional(ds);
    forall i | 0 <= i < |ds| ensures ds[i].0 in Collect(ds) && Collect(ds)[ds[i].0] == ds[i].1 {
      assert ds[i] in ds;
      var q := (ds[i].0, Collect(ds)[ds[i].0]);
      var b :| 0 <= b < |ds| && ds[b] == q;
    }
    forall k | k in Collect(ds) ensures exists i :: 0 <= i < |ds| && ds[i].0 == k {
      var q := (k, Collect(ds)[k]);
      var b :| 0 <= b < |ds| && ds[b] == q;
    }
  }

  /** Filling the holder in any order gives the same holder. */
  lemma CollectPermuted<T>(a: seq<(string, T)>, b: seq<(string, T)>)
    requires forall p :: p in a <==> p in b
    requires Functional(a)
    ensures Collect(a) == Collect(b)
  {
    CollectContents(a);
    CollectContents(b);
    forall k | k in Collect(a) ensures k in Collect(b) && Collect(a)[k] == Collect(b)[k] {
      var pa := (k, Collect(a)[k]);
      var pb := (k, Collect(b)[k]);
      assert pa in a && pb in a;
      var i :| 0 <= i < |a| && a[i] == pa;
      var j :| 0 <= j < |a| && a[j] == pb;
    }
  }

  /** The callback invocations the counter makes: errors as `cb (error, …)`,
      the completion as `cb (null, onComplete (holder))`. */
  function Settle<T, U>(out: seq<Outcome<T>>, onComplete: map<string, T> -> U): seq<Reply<U>>
  {
    if out == [] then []
    else
      var last := match out[|out| - 1] case Forward(e) => Fail(e) case Complete(h) => Ok(onComplete(h));
      Settle(out[..|out| - 1], onComplete) + [last]
  }

  /** The callback receives each passed-on error, in order, and one success
      per completion, carrying `onComplete` of its holder. */
  lemma {:induction false} SettleParts<T, U>(out: seq<Outcome<T>>, onComplete: map<string, T> -> U)
    ensures FailuresOf(Settle(out, onComplete)) == Forwarded(out)
    ensures |OksOf(Settle(out, onComplete))| == |Completions(out)|
    ensures forall i :: 0 <= i < |Completions(out)| ==> OksOf(Settle(out, onComplete))[i] == onComplete(Completions(out)[i])
  {
    if out != [] {
      var init := out[..|out| - 1];
      SettleParts(init, onComplete);
      var rs := Settle(out, onComplete);
      assert rs[..|rs| - 1] == Settle(init, onComplete);
    }
  }

  /** The callback a parent passes to a child: an error is passed on, a
      success is counted under the child's name, its result wrapped. */
  function Relay<T, U>(name: string, rs: seq<Reply<T>>, wrap: T -> U): seq<Signal<U>>
  {
    if rs == [] then []
    else
      var last := match rs[|rs| - 1] case Ok(v) => Done(name, wrap(v)) case Fail(e) => Failed(e);
      Relay(name, rs[..|rs| - 1], wrap) + [last]
  }

  lemma {:induction false} RelayParts<T, U>(name: string, rs: seq<Reply<T>>, wrap: T -> U)
    ensures Failures(Relay(name, rs, wrap)) == FailuresOf(rs)
    ensures |Dones(Relay(name, rs, wrap))| == |OksOf(rs)|
    ensures forall i :: 0 <= i < |OksOf(rs)| ==> Dones(Relay(name, rs, wrap))[i] == (name, wrap(OksOf(rs)[i]))
  {
    if rs != [] {
      RelayParts(name, rs[..|rs| - 1], wrap);
      var r := Relay(name, rs, wrap);
      assert r[..|r| - 1] == Relay(name, rs[..|rs| - 1], wrap);
    }
  }
}
