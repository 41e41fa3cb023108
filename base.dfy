/**
 * Values shared by every part of the model of FileUtils' `File` class
 * (src/file-utils.js): optional values, the errors a completion callback
 * can receive, and one invocation of a Node-style `cb (error, result)`.
 */
module Base {

  datatype Option<T> = None | Some(value: T)

  /** The errors that reach a callback. The source passes Node's own error
      objects or plain strings; only their cause is kept. */
  datatype Error =
    | StatFailed(path: string)     // stat of `path` failed: nothing there, or a dangling link
    | NotADirectory                // "The path is not a directory." (list)
    | AlreadyExists(path: string)  // mkdir on a path that exists
    | NoParent(path: string)       // mkdir whose parent is missing or not a directory
    | NotEmpty(path: string)       // rmdirSync on a directory that still has entries
    | IsADirectory(path: string)   // a write stream opened on a directory
    | Io(detail: string)           // any other failure of the platform layer (chmod, rename, streams)

  /** One call of a completion callback: `cb (null, value)` or `cb (error, _)`. */
  datatype Reply<T> = Ok(value: T) | Fail(error: Error)

  /** The errors carried by a sequence of replies, in order. */
  function FailuresOf<T>(rs: seq<Reply<T>>): seq<Error>
  {
    if rs == [] then [] else FailuresOf(rs[..|rs| - 1]) + (if rs[|rs| - 1].Fail? then [rs[|rs| - 1].error] else [])
  }

  /** The results carried by a sequence of replies, in order. */
  function OksOf<T>(rs: seq<Reply<T>>): seq<T>
  {
    if rs == [] then [] else OksOf(rs[..|rs| - 1]) + (if rs[|rs| - 1].Ok? then [rs[|rs| - 1].value] else [])
  }

  /** `cb (error, …)` once per error, in order. */
  function FailAll<T>(es: seq<Error>): (rs: seq<Reply<T>>)
    ensures |rs| == |es|
    ensures forall i :: 0 <= i < |es| ==> rs[i] == Fail(es[i])
  {
    if es == [] then [] else FailAll(es[..|es| - 1]) + [Fail(es[|es| - 1])]
  }

  /** True when every reply is an error: the operation reported no success. */
  predicate OnlyFailures<T>(rs: seq<Reply<T>>)
  {
    forall i :: 0 <= i < |rs| ==> rs[i].Fail?
  }

  lemma {:induction false} FailuresOfFailAll<T>(es: seq<Error>)
    ensures FailuresOf<T>(FailAll<T>(es)) == es
  {
    if es != [] {
      FailuresOfFailAll<T>(es[..|es| - 1]);
      var rs := FailAll<T>(es);
      assert rs[..|rs| - 1] == FailAll<T>(es[..|es| - 1]);
    }
  }

  lemma {:induction false} FailuresOfConcat<T>(a: seq<Reply<T>>, b: seq<Reply<T>>)
    ensures FailuresOf(a + b) == FailuresOf(a) + FailuresOf(b)
    decreases |b|
  {
    if b == [] {
      assert a + b == a;
    } else {
      FailuresOfConcat(a, b[..|b| - 1]);
      assert (a + b)[..|a + b| - 1] == a + b[..|b| - 1];
    }
  }

  lemma {:induction false} OksOfConcat<T>(a: seq<Reply<T>>, b: seq<Reply<T>>)
    ensures OksOf(a + b) == OksOf(a) + OksOf(b)
    decreases |b|
  {
    if b == [] {
      assert a + b == a;
    } else {
      OksOfConcat(a, b[..|b| - 1]);
      assert (a + b)[..|a + b| - 1] == a + b[..|b| - 1];
    }
  }

  lemma {:induction false} OksOfFailAll<T>(es: seq<Error>)
    ensures OksOf<T>(FailAll<T>(es)) == []
  {
    if es != [] {
      OksOfFailAll<T>(es[..|es| - 1]);
      var rs := FailAll<T>(es);
      assert rs[..|rs| - 1] == FailAll<T>(es[..|es| - 1]);
    }
  }

  /** Every reply is either an error or a result. */
  lemma {:induction false} RepliesSplit<T>(rs: seq<Reply<T>>)
    ensures |FailuresOf(rs)| + |OksOf(rs)| == |rs|
  {
    if rs != [] {
      RepliesSplit(rs[..|rs| - 1]);
    }
  }

  /** The errors passed on, then at most one result: the errors are the
      errors, and the result is the only one. */
  lemma ErrorsThenResult<T>(es: seq<Error>, fires: bool, v: T)
    ensures OksOf(FailAll<T>(es) + (if fires then [Ok(v)] else [])) == if fires then [v] else []
    ensures FailuresOf(FailAll<T>(es) + (if fires then [Ok(v)] else [])) == es
  {
    var tail: seq<Reply<T>> := if fires then [Ok(v)] else [];
    OksOfConcat(FailAll<T>(es), tail);
    OksOfFailAll<T>(es);
    FailuresOfConcat(FailAll<T>(es), tail);
    FailuresOfFailAll<T>(es);
    if fires {
      assert tail[..0] == [];
    }
  }
}
