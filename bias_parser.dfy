/**
 * biasParser: applies an analysis function to every run directory of a bias
 * scan, or to every pair of consecutive runs.
 */
module BiasParsing {

  import opened Wrappers

  /**
   * A Python callable invoked as `function(*args, **kwargs)`: the positional
   * arguments are run paths; a result of None is Option.None.
   */
  type Callable<!V, R> = (seq<string>, map<string, V>) -> Option<R>

  /** What `run` returns: the non-None results of `function(path)`, in path order. */
  function CollectResults<V, R>(f: Callable<V, R>, paths: seq<string>): (results: seq<R>)
    ensures |results| <= |paths|
    ensures (forall i :: 0 <= i < |paths| ==> f([paths[i]], map[]).Some?) ==> |results| == |paths|
    ensures (forall i :: 0 <= i < |paths| ==> f([paths[i]], map[]).None?) ==> results == []
    ensures forall x :: x in results ==> exists i :: 0 <= i < |paths| && f([paths[i]], map[]) == Some(x)
  {
    if paths == [] then []
    else
      var init := paths[..|paths| - 1];
      var rest := CollectResults(f, init);
      assert forall i :: 0 <= i < |init| ==> init[i] == paths[i];
      rest + Contribution(f, paths[|paths| - 1])
  }

  /** What one path adds to `run`'s results: its result, unless that is None. */
  function Contribution<V, R>(f: Callable<V, R>, path: string): (added: seq<R>)
    ensures f([path], map[]).Some? ==> added == [f([path], map[]).value]
    ensures f([path], map[]).None? ==> added == []
  {
    match f([path], map[])
    case None => []
    case Some(r) => [r]
  }

  /** Running over a + b collects a's results and then b's: results keep path order. */
  lemma {:induction false} CollectResultsAppend<V, R>(f: Callable<V, R>, a: seq<string>, b: seq<string>)
    ensures CollectResults(f, a + b) == CollectResults(f, a) + CollectResults(f, b)
    decreases |b|
  {
    var ab := a + b;
    if b == [] {
      assert ab == a;
    } else {
      var init := b[..|b| - 1];
      var last := b[|b| - 1];
      assert ab[..|ab| - 1] == a + init;
      assert ab[|ab| - 1] == last;
      calc {
        CollectResults(f, ab);
        CollectResults(f, a + init) + Contribution(f, last);
        { CollectResultsAppend(f, a, init); }
        CollectResults(f, a) + CollectResults(f, init) + Contribution(f, last);
        CollectResults(f, a) + (CollectResults(f, init) + Contribution(f, last));
        CollectResults(f, a) + CollectResults(f, b);
      }
    }
  }

  /** One path contributes its result when it is not None, and nothing otherwise. */
  lemma CollectResultsSingle<V, R>(f: Callable<V, R>, p: string)
    ensures f([p], map[]).Some? ==> CollectResults(f, [p]) == [f([p], map[]).value]
    ensures f([p], map[]).None? ==> CollectResults(f, [p]) == []
  {
    assert [p][..0] == [];
  }

  /** What `double_run` returns: `function(paths[i], paths[i+1], **kwargs)` for every consecutive pair, None included. */
  function PairResults<V, R>(f: Callable<V, R>, paths: seq<string>, kwargs: map<string, V>): (results: seq<Option<R>>)
    requires |paths| >= 1
    ensures |results| == |paths| - 1
  {
    seq(|paths| - 1, i requires 0 <= i < |paths| - 1 => f([paths[i], paths[i + 1]], kwargs))
  }

  /** The IndexError of `run_paths[0]` on an empty run list. */
  datatype ParserError = NoRuns

  class BiasParser<V, R> {
    const biasDir: string
    const runPaths: seq<string>
    var func: Option<Callable<V, R>>
    /** The keyword arguments; None until set_function, since `__init__` never assigns them. */
    var kwargs: Option<map<string, V>>

    /** `__init__`, with the run directories already listed instead of globbed. */
    constructor (biasDir: string, runPaths: seq<string>)
      ensures this.biasDir == biasDir && this.runPaths == runPaths
      ensures func == None && kwargs == None
    {
      this.biasDir := biasDir;
      this.runPaths := runPaths;
      func := None;
      kwargs := None;
    }

    /** set_function: replaces both the function and its keyword arguments. */
    method SetFunction(f: Callable<V, R>, kw: map<string, V>)
      modifies this
      ensures func == Some(f) && kwargs == Some(kw)
    {
      func := Some(f);
      kwargs := Some(kw);
    }

    /**
     * run: calls the function on each run path in list order and keeps the
     * results that are not None. Calling None fails, unless there is no run.
     */
    method Run() returns (results: seq<R>)
      requires runPaths != [] ==> func.Some?
      ensures runPaths == [] ==> results == []
      ensures func.Some? ==> results == CollectResults(func.value, runPaths)
    {
      results := [];
      for i := 0 to |runPaths|
        invariant func.Some? ==> results == CollectResults(func.value, runPaths[..i])
        invariant i == 0 ==> results == []
      {
        var runPath := runPaths[i];
        var result := func.value([runPath], map[]);
        assert runPaths[..i + 1][..i] == runPaths[..i];
        assert CollectResults(func.value, runPaths[..i + 1]) == CollectResults(func.value, runPaths[..i]) + Contribution(func.value, runPath);
        if result.None? {
          continue;
        }
        results := results + [result.value];
      }
      assert runPaths[..|runPaths|] == runPaths;
    }

    /**
     * double_run: calls the function on each pair of consecutive run paths,
     * passing the keyword arguments. The skip test `if results is None`
     * looks at the list, which is never None, so every result is kept, None
     * included: one per pair. An empty run list fails at `run_paths[0]`.
     */
    method DoubleRun() returns (outcome: Result<seq<Option<R>>, ParserError>)
      requires |runPaths| >= 2 ==> func.Some? && kwargs.Some?
      ensures runPaths == [] <==> outcome == Failure(NoRuns)
      ensures outcome.Success? ==> |outcome.value| == |runPaths| - 1
      ensures runPaths != [] && func.Some? && kwargs.Some? ==>
        outcome == Success(PairResults(func.value, runPaths, kwargs.value))
    {
      if runPaths == [] {
        return Failure(NoRuns);
      }
      var results: seq<Option<R>> := [];
      var prevRunPath := runPaths[0];
      for i := 1 to |runPaths|
        invariant prevRunPath == runPaths[i - 1]
        invariant |results| == i - 1
        invariant func.Some? && kwargs.Some? ==> results == PairResults(func.value, runPaths[..i], kwargs.value)
      {
        var runPath := runPaths[i];
        var result := func.value([prevRunPath, runPath], kwargs.value);
        prevRunPath := runPath;
        ghost var before := PairResults(func.value, runPaths[..i], kwargs.value);
        ghost var after := PairResults(func.value, runPaths[..i + 1], kwargs.value);
        assert after == before + [result];
        results := results + [result];
      }
      assert runPaths[..|runPaths|] == runPaths;
      return Success(results);
    }
  }

  /** A parser whose function has been set runs it over every path, whatever the constructor was given. */
  method RunAfterSetFunction<V, R>(biasDir: string, paths: seq<string>, f: Callable<V, R>, kw: map<string, V>)
    returns (single: seq<R>, pairs: Result<seq<Option<R>>, ParserError>)
    ensures single == CollectResults(f, paths)
    ensures paths == [] ==> pairs == Failure(NoRuns)
    ensures paths != [] ==> pairs == Success(PairResults(f, paths, kw))
  {
    var parser := new BiasParser<V, R>(biasDir, paths);
    parser.SetFunction(f, kw);
    single := parser.Run();
    pairs := parser.DoubleRun();
  }
}
