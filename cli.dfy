/**
 * `simcache/cli.py`: the commands that drive a simulation script through
 * the store. The script's simulation function, the environment fingerprint,
 * the git commit and the clock are parameters; a command's printed output
 * is returned instead.
 */
module Cli {
  import opened Wrappers
  import opened Strings
  import opened Json
  import Sweep
  import Canonical
  import Store

  // ---------------------------------------------------------------------
  // _normalize_result
  // ---------------------------------------------------------------------

  /**
   * A value the simulation function returns: a dict, whose values are read
   * as arrays when it is the arrays dict and as JSON when it is the extra
   * metadata; a tuple; or any other value, by its type name.
   */
  datatype Output =
    | ODict(arrays: Store.Arrays, fields: Store.Meta)
    | OTuple(items: seq<Output>)
    | OOther(typeName: string)

  /** The simulation function `run(params, seed)`. */
  type RunFn = (Json, Json) -> Output

  /**
   * `_normalize_result(result)`: a pair is `(arrays, extra)`, anything else
   * is the arrays with no extra metadata; both must be dicts.
   */
  function NormalizeResult(result: Output): (r: Result<(Store.Arrays, Store.Meta)>)
    ensures r.Err? ==> r.error.TypeError?
  {
    var (arrays, extra) :=
      if result.OTuple? && |result.items| == 2 then (result.items[0], result.items[1])
      else (result, ODict(map[], map[]));
    if !arrays.ODict? then Err(TypeError("Simulation result must be a dict of numpy arrays"))
    else if !extra.ODict? then Err(TypeError("Simulation metadata must be a dictionary"))
    else Ok((arrays.arrays, extra.fields))
  }

  /**
   * A pair of dicts splits into arrays and extra metadata, a lone dict is
   * the arrays with no extra, and every other result raises TypeError.
   */
  lemma NormalizeResultCases(result: Output)
    ensures result.OTuple? && |result.items| == 2 && result.items[0].ODict? && result.items[1].ODict? ==>
      NormalizeResult(result) == Ok((result.items[0].arrays, result.items[1].fields))
    ensures result.ODict? ==> NormalizeResult(result) == Ok((result.arrays, map[]))
    ensures NormalizeResult(result).Ok? <==>
      result.ODict? || (result.OTuple? && |result.items| == 2 && result.items[0].ODict? && result.items[1].ODict?)
  {
  }

  // ---------------------------------------------------------------------
  // cmd_run
  // ---------------------------------------------------------------------

  /** The arguments of `simcache run` the command uses once the files are read. */
  datatype RunArgs = RunArgs(
    params: Json, seed: int, codeVersion: Option<string>, env: Json,
    tags: Json, plotConfig: Json, force: bool, format: string)

  /** What a command did: the store afterwards, its result, and whether it called the simulation function. */
  datatype RunOutcome = RunOutcome(disk: Store.Disk, result: Result<string>, called: bool)

  /** The run id of a simulation's parameters and seed: `compute_run_id`, which never fails on JSON. */
  function RunIdOf(sha: Canonical.Digest, params: Json, seed: Json, codeVersion: Option<string>, env: Json): (id: string)
    ensures IsHexDigest(id)
    ensures Store.ComputeRunId(sha, Canonical.FromJson(params), Canonical.FromJson(seed), codeVersion,
                               Canonical.FromJson(env)) == Ok(id)
  {
    Store.ComputeRunIdJson(sha, params, seed, codeVersion, env);
    Store.ComputeRunId(sha, Canonical.FromJson(params), Canonical.FromJson(seed), codeVersion, Canonical.FromJson(env)).value
  }

  /**
   * `cmd_run`: print the run id and stop if the run exists and `--force`
   * is not given; otherwise run the simulation, check its result, build the
   * metadata and save. A result of the wrong type raises before anything is
   * saved.
   */
  function CmdRunSpec(d: Store.Disk, caps: Store.Capabilities, sha: Canonical.Digest, args: RunArgs,
                      runFn: RunFn, timestamp: string): RunOutcome
  {
    var id := RunIdOf(sha, args.params, JInt(args.seed), args.codeVersion, args.env);
    if Store.RunExistsSpec(d, id) && !args.force then RunOutcome(d, Ok(id), false)
    else
      var out := NormalizeResult(runFn(args.params, JInt(args.seed)));
      if out.Err? then RunOutcome(d, Err(out.error), true)
      else
        var md := Store.BuildMetadata(args.params, JInt(args.seed), args.codeVersion, args.env,
                                      args.tags, args.plotConfig, out.value.1, timestamp);
        if md.Err? then RunOutcome(d, Err(md.error), true)
        else
          var (d', r) := Store.SaveSpec(d, caps, id, out.value.0, md.value, JStr(args.format));
          RunOutcome(d', if r.Err? then Err(r.error) else Ok(id), true)
  }

  /** An existing run without `--force` is a cache hit: nothing runs and nothing changes. */
  lemma CmdRunSkip(d: Store.Disk, caps: Store.Capabilities, sha: Canonical.Digest, args: RunArgs,
                   runFn: RunFn, timestamp: string)
    requires Store.RunExistsSpec(d, RunIdOf(sha, args.params, JInt(args.seed), args.codeVersion, args.env))
    requires !args.force
    ensures var o := CmdRunSpec(d, caps, sha, args, runFn, timestamp);
      o.disk == d && !o.called && o.result.Ok? && IsHexDigest(o.result.value)
  {
  }

  /** A simulation result of the wrong type raises TypeError with the store untouched, before any save. */
  lemma CmdRunBadResult(d: Store.Disk, caps: Store.Capabilities, sha: Canonical.Digest, args: RunArgs,
                        runFn: RunFn, timestamp: string)
    requires !Store.RunExistsSpec(d, RunIdOf(sha, args.params, JInt(args.seed), args.codeVersion, args.env)) || args.force
    requires NormalizeResult(runFn(args.params, JInt(args.seed))).Err?
    ensures var o := CmdRunSpec(d, caps, sha, args, runFn, timestamp);
      o.disk == d && o.called && o.result.Err? && o.result.error.TypeError?
  {
  }

  /** A completed run can be loaded back under the printed id, with the simulation's arrays. */
  lemma CmdRunLoads(d: Store.Disk, caps: Store.Capabilities, sha: Canonical.Digest, args: RunArgs,
                    runFn: RunFn, timestamp: string)
    requires var o := CmdRunSpec(d, caps, sha, args, runFn, timestamp); o.called && o.result.Ok?
    ensures var o := CmdRunSpec(d, caps, sha, args, runFn, timestamp);
      && Store.RunExistsSpec(o.disk, o.result.value)
      && Store.LoadSpec(o.disk, caps, o.result.value).Ok?
      && Store.LoadSpec(o.disk, caps, o.result.value).value.arrays == NormalizeResult(runFn(args.params, JInt(args.seed))).value.0
  {
    var id := RunIdOf(sha, args.params, JInt(args.seed), args.codeVersion, args.env);
    var out := NormalizeResult(runFn(args.params, JInt(args.seed))).value;
    var md := Store.BuildMetadata(args.params, JInt(args.seed), args.codeVersion, args.env,
                                  args.tags, args.plotConfig, out.1, timestamp).value;
    Store.SaveThenLoad(d, caps, id, out.0, md, JStr(args.format));
  }

  /** `cmd_run` on an open store. */
  method CmdRun(stash: Store.SimCache, sha: Canonical.Digest, args: RunArgs, runFn: RunFn, timestamp: string)
    returns (r: Result<string>, called: bool)
    modifies stash
    ensures RunOutcome(stash.State(), r, called) == CmdRunSpec(old(stash.State()), stash.caps, sha, args, runFn, timestamp)
  {
    var id := RunIdOf(sha, args.params, JInt(args.seed), args.codeVersion, args.env);
    var found := stash.RunExists(id);
    if found && !args.force {
      return Ok(id), false;
    }
    called := true;
    var out := NormalizeResult(runFn(args.params, JInt(args.seed)));
    if out.Err? {
      return Err(out.error), called;
    }
    var (arrays, extra) := out.value;
    var md := Store.BuildMetadata(args.params, JInt(args.seed), args.codeVersion, args.env,
                                  args.tags, args.plotConfig, extra, timestamp);
    if md.Err? {
      return Err(md.error), called;
    }
    var saved := stash.Save(id, arrays, md.value, JStr(args.format));
    if saved.Err? {
      return Err(saved.error), called;
    }
    r := Ok(id);
  }

  // ---------------------------------------------------------------------
  // cmd_sweep
  // ---------------------------------------------------------------------

  /** What every run of a sweep shares: the store's codecs, the hash, the fingerprint and the settings read from the grid. */
  datatype SweepConfig = SweepConfig(
    caps: Store.Capabilities, sha: Canonical.Digest, codeVersion: Option<string>, env: Json,
    tags: Json, plotConfig: Json, format: Json, runFn: RunFn, clock: nat -> string)

  /**
   * The sweep loop's variables: the store, the two counters, the pairs the
   * simulation function was called on (in order) and the exception that
   * stopped the loop, if one did.
   */
  datatype SweepState = SweepState(
    disk: Store.Disk, executed: nat, skipped: nat, calls: seq<Sweep.Pair>, error: Option<Error>)

  /** The run id of one `(params, seed)` pair of the sweep. */
  function PairRunId(c: SweepConfig, p: Sweep.Pair): string
  {
    RunIdOf(c.sha, JObj(p.0), p.1, c.codeVersion, c.env)
  }

  /**
   * Running one pair whose run does not exist yet: call the simulation (its
   * timestamp is the clock at the `k`-th call), build the metadata and save.
   * Returns the store afterwards and the exception raised, if any.
   */
  function Execute(c: SweepConfig, d: Store.Disk, id: string, p: Sweep.Pair, k: nat): (Store.Disk, Option<Error>)
  {
    var out := NormalizeResult(c.runFn(JObj(p.0), p.1));
    if out.Err? then (d, Some(out.error))
    else
      var md := Store.BuildMetadata(JObj(p.0), p.1, c.codeVersion, c.env, c.tags, c.plotConfig,
                                    out.value.1, c.clock(k));
      if md.Err? then (d, Some(md.error))
      else
        var (d', r) := Store.SaveSpec(d, c.caps, id, out.value.0, md.value, c.format);
        (d', if r.Err? then Some(r.error) else None)
  }

  /** One iteration of the sweep loop: skip a pair whose run exists, otherwise run it. An exception ends the loop. */
  function Step(c: SweepConfig, st: SweepState, p: Sweep.Pair): (st': SweepState)
  {
    if st.error.Some? then st
    else
      var id := PairRunId(c, p);
      if Store.RunExistsSpec(st.disk, id) then st.(skipped := st.skipped + 1)
      else
        var (d', e) := Execute(c, st.disk, id, p, |st.calls|);
        st.(disk := d', calls := st.calls + [p], executed := if e.None? then st.executed + 1 else st.executed, error := e)
  }

  /** The sweep loop over `pairs`, from the initial store. */
  function Sweeping(c: SweepConfig, d: Store.Disk, pairs: seq<Sweep.Pair>): SweepState
    decreases |pairs|
  {
    if |pairs| == 0 then SweepState(d, 0, 0, [], None)
    else Step(c, Sweeping(c, d, pairs[..|pairs| - 1]), pairs[|pairs| - 1])
  }

  /**
   * The settings `cmd_sweep` reads from the grid: its tags (a str is one
   * tag), its plot config, and its format, which overrides `--format`.
   */
  function SweepSettings(grid: seq<Field>, cliFormat: string): (r: (Json, Json, Json))
    ensures Sweep.Get(grid, "format").Some? ==> r.2 == Sweep.Get(grid, "format").value
    ensures Sweep.Get(grid, "format").None? ==> r.2 == JStr(cliFormat)
    ensures Sweep.Get(grid, "tags").Some? && Sweep.Get(grid, "tags").value.JStr? ==> r.0 == JArr([Sweep.Get(grid, "tags").value])
  {
    var tags := match Sweep.Get(grid, "tags") case Some(t) => t case None => JArr([]);
    var plotConfig := match Sweep.Get(grid, "plot_config") case Some(p) => p case None => JNull;
    var format := match Sweep.Get(grid, "format") case Some(f) => f case None => JStr(cliFormat);
    (if tags.JStr? then JArr([tags]) else tags, plotConfig, format)
  }

  /** The sweep's configuration from the grid and the command line. */
  function ConfigOf(caps: Store.Capabilities, sha: Canonical.Digest, grid: seq<Field>, codeVersion: Option<string>,
                    env: Json, cliFormat: string, runFn: RunFn, clock: nat -> string): SweepConfig
  {
    var (tags, plotConfig, format) := SweepSettings(grid, cliFormat);
    SweepConfig(caps, sha, codeVersion, env, tags, plotConfig, format, runFn, clock)
  }

  /** `cmd_sweep`: the sweep's pairs, or the exception enumerating them raises, then the loop. */
  function CmdSweepSpec(d: Store.Disk, c: SweepConfig, grid: seq<Field>): SweepState
  {
    var pairs := Sweep.SweepSpec(grid);
    if pairs.Err? then SweepState(d, 0, 0, [], Some(pairs.error))
    else Sweeping(c, d, pairs.value)
  }

  /** The line a completed sweep prints: `ran=<executed> skipped=<skipped>`. */
  function SweepReport(st: SweepState): string
  {
    "ran=" + IntToString(st.executed) + " skipped=" + IntToString(st.skipped)
  }

  /** A loop stopped by an exception stays stopped: later pairs change nothing. */
  lemma {:induction false} SweepingStopped(c: SweepConfig, d: Store.Disk, pairs: seq<Sweep.Pair>, i: nat)
    requires i <= |pairs| && Sweeping(c, d, pairs[..i]).error.Some?
    ensures Sweeping(c, d, pairs) == Sweeping(c, d, pairs[..i])
    decreases |pairs|
  {
    if i < |pairs| {
      var init := pairs[..|pairs| - 1];
      assert init[..i] == pairs[..i];
      SweepingStopped(c, d, init, i);
    } else {
      assert pairs[..i] == pairs;
    }
  }

  /** What one step does to the loop's variables, without the details of the run it saves. */
  lemma StepEffect(c: SweepConfig, st: SweepState, p: Sweep.Pair)
    ensures var st', id := Step(c, st, p), PairRunId(c, p);
      && st.disk.runs <= st'.disk.runs
      && (st.error.Some? ==> st' == st)
      && (st.error.None? && id in st.disk.runs ==> st' == st.(skipped := st.skipped + 1))
      && (st.error.None? && id !in st.disk.runs ==>
            && st'.calls == st.calls + [p] && st'.skipped == st.skipped
            && (st'.error.None? ==> st'.executed == st.executed + 1 && id in st'.disk.runs))
  {
    var id := PairRunId(c, p);
    if st.error.None? && id !in st.disk.runs {
      ExecuteEffect(c, st.disk, id, p, |st.calls|);
    }
  }

  /** Running a pair only adds run directories, and one that raises nothing leaves its run behind. */
  lemma ExecuteEffect(c: SweepConfig, d: Store.Disk, id: string, p: Sweep.Pair, k: nat)
    ensures var (d', e) := Execute(c, d, id, p, k);
      d.runs <= d'.runs && (e.None? ==> id in d'.runs)
  {
    var out := NormalizeResult(c.runFn(JObj(p.0), p.1));
    if out.Ok? {
      var md := Store.BuildMetadata(JObj(p.0), p.1, c.codeVersion, c.env, c.tags, c.plotConfig,
                                    out.value.1, c.clock(k));
      if md.Ok? {
        Store.SaveThenExists(d, c.caps, id, out.value.0, md.value, c.format);
        SaveKeepsRuns(d, c.caps, id, out.value.0, md.value, c.format);
      }
    }
  }

  /** Saving never removes a run directory. */
  lemma SaveKeepsRuns(d: Store.Disk, caps: Store.Capabilities, runId: string, arrays: Store.Arrays, md: Store.Meta, format: Json)
    ensures d.runs <= Store.SaveSpec(d, caps, runId, arrays, md, format).0.runs
  {
  }

  /** The facts the sweep loop keeps (see `SweepInvariant`). */
  ghost predicate SweepInv(c: SweepConfig, d: Store.Disk, pairs: seq<Sweep.Pair>, st: SweepState)
  {
    && d.runs <= st.disk.runs
    && (st.error.None? ==> st.executed + st.skipped == |pairs| && |st.calls| == st.executed)
    && (st.error.None? ==> forall p :: p in pairs ==> PairRunId(c, p) in st.disk.runs)
    && (st.error.None? ==> forall i :: 0 <= i < |st.calls| ==> PairRunId(c, st.calls[i]) in st.disk.runs)
    && (forall i :: 0 <= i < |st.calls| ==> st.calls[i] in pairs && PairRunId(c, st.calls[i]) !in d.runs)
    && (forall i, j :: 0 <= i < j < |st.calls| ==> PairRunId(c, st.calls[i]) != PairRunId(c, st.calls[j]))
  }

  /**
   * The sweep loop only adds runs; when it completes, every pair was either
   * executed or skipped and every pair's run exists; the simulation function
   * is called only on pairs of the sweep whose run did not exist before the
   * sweep, and at most once per run id.
   */
  lemma {:induction false} SweepInvariant(c: SweepConfig, d: Store.Disk, pairs: seq<Sweep.Pair>)
    ensures SweepInv(c, d, pairs, Sweeping(c, d, pairs))
    decreases |pairs|
  {
    if |pairs| > 0 {
      var init := pairs[..|pairs| - 1];
      assert pairs == init + [pairs[|pairs| - 1]];
      SweepInvariant(c, d, init);
      StepKeeps(c, d, init, Sweeping(c, d, init), pairs[|pairs| - 1]);
    }
  }

  /** One step keeps the loop's facts. */
  lemma StepKeeps(c: SweepConfig, d: Store.Disk, init: seq<Sweep.Pair>, st: SweepState, p: Sweep.Pair)
    requires SweepInv(c, d, init, st)
    ensures SweepInv(c, d, init + [p], Step(c, st, p))
  {
    var pairs := init + [p];
    var st', id := Step(c, st, p), PairRunId(c, p);
    StepEffect(c, st, p);
    assert forall q :: q in pairs <==> q in init || q == p;
    if st.error.None? && id !in st.disk.runs {
      assert st'.calls[|st.calls|] == p;
      assert id !in d.runs;
      assert forall i :: 0 <= i < |st.calls| ==> st'.calls[i] == st.calls[i];
    }
  }

  /** A sweep that completes runs or skips every pair, and afterwards every pair's run exists. */
  lemma SweepCompletes(d: Store.Disk, c: SweepConfig, grid: seq<Field>)
    requires CmdSweepSpec(d, c, grid).error.None?
    ensures var st, pairs := CmdSweepSpec(d, c, grid), Sweep.SweepSpec(grid).value;
      && st.executed + st.skipped == |pairs|
      && |st.calls| == st.executed
      && (forall p :: p in pairs ==> Store.RunExistsSpec(st.disk, PairRunId(c, p)))
  {
    SweepInvariant(c, d, Sweep.SweepSpec(grid).value);
  }

  /**
   * The simulation function runs only on pairs of the sweep whose run did
   * not exist beforehand, and never twice for one run id: a duplicate pair
   * is skipped.
   */
  lemma SweepCallsOnce(d: Store.Disk, c: SweepConfig, grid: seq<Field>)
    requires Sweep.SweepSpec(grid).Ok?
    ensures var st, pairs := CmdSweepSpec(d, c, grid), Sweep.SweepSpec(grid).value;
      && (forall i :: 0 <= i < |st.calls| ==> st.calls[i] in pairs && !Store.RunExistsSpec(d, PairRunId(c, st.calls[i])))
      && (forall i, j :: 0 <= i < j < |st.calls| ==> PairRunId(c, st.calls[i]) != PairRunId(c, st.calls[j]))
  {
    SweepInvariant(c, d, Sweep.SweepSpec(grid).value);
  }

  /** Running one pair on an open store (see `Execute`). */
  method ExecutePair(stash: Store.SimCache, c: SweepConfig, id: string, p: Sweep.Pair, k: nat) returns (error: Option<Error>)
    modifies stash
    requires c.caps == stash.caps
    ensures (stash.State(), error) == Execute(c, old(stash.State()), id, p, k)
  {
    var (params, seed) := p;
    var out := NormalizeResult(c.runFn(JObj(params), seed));
    if out.Err? {
      return Some(out.error);
    }
    var (arrays, extra) := out.value;
    var md := Store.BuildMetadata(JObj(params), seed, c.codeVersion, c.env, c.tags, c.plotConfig,
                                  extra, c.clock(k));
    if md.Err? {
      return Some(md.error);
    }
    var saved := stash.Save(id, arrays, md.value, c.format);
    error := if saved.Err? then Some(saved.error) else None;
  }

  /** One pass of the sweep loop's body on an open store (see `Step`). */
  method SweepPair(stash: Store.SimCache, c: SweepConfig, p: Sweep.Pair, executed: nat, skipped: nat, calls: seq<Sweep.Pair>)
    returns (executed': nat, skipped': nat, calls': seq<Sweep.Pair>, error: Option<Error>)
    modifies stash
    requires c.caps == stash.caps
    ensures SweepState(stash.State(), executed', skipped', calls', error)
         == Step(c, SweepState(old(stash.State()), executed, skipped, calls, None), p)
  {
    executed', skipped', calls', error := executed, skipped, calls, None;
    var id := PairRunId(c, p);
    var found := stash.RunExists(id);
    if found {
      skipped' := skipped + 1;
      return;
    }
    error := ExecutePair(stash, c, id, p, |calls|);
    calls' := calls + [p];
    if error.None? {
      executed' := executed + 1;
    }
  }

  /** `cmd_sweep` on an open store: returns the two counters it prints, the calls made and the exception, if any. */
  method CmdSweep(stash: Store.SimCache, c: SweepConfig, grid: seq<Field>)
    returns (executed: nat, skipped: nat, calls: seq<Sweep.Pair>, error: Option<Error>)
    modifies stash
    requires c.caps == stash.caps
    ensures SweepState(stash.State(), executed, skipped, calls, error) == CmdSweepSpec(old(stash.State()), c, grid)
  {
    executed, skipped, calls, error := 0, 0, [], None;
    var pairs := Sweep.IterSweep(grid);
    if pairs.Err? {
      error := Some(pairs.error);
      return;
    }
    ghost var d0 := stash.State();
    for i := 0 to |pairs.value|
      invariant error.None?
      invariant SweepState(stash.State(), executed, skipped, calls, error) == Sweeping(c, d0, pairs.value[..i])
    {
      ghost var st := SweepState(stash.State(), executed, skipped, calls, error);
      executed, skipped, calls, error := SweepPair(stash, c, pairs.value[i], executed, skipped, calls);
      SweepingNext(c, d0, pairs.value, i, st);
      if error.Some? {
        SweepingStoppedSpec(d0, c, grid, i + 1);
        return;
      }
    }
    SweepingDoneSpec(d0, c, grid);
  }

  /** The loop after pair `i` is one more step. */
  lemma SweepingNext(c: SweepConfig, d: Store.Disk, pairs: seq<Sweep.Pair>, i: nat, st: SweepState)
    requires i < |pairs| && st == Sweeping(c, d, pairs[..i])
    ensures Sweeping(c, d, pairs[..i + 1]) == Step(c, st, pairs[i])
  {
    var pre := pairs[..i + 1];
    assert pre[..|pre| - 1] == pairs[..i] && pre[|pre| - 1] == pairs[i];
  }

  /** A sweep whose loop stopped after `i` pairs ends there. */
  lemma SweepingStoppedSpec(d: Store.Disk, c: SweepConfig, grid: seq<Field>, i: nat)
    requires Sweep.SweepSpec(grid).Ok? && i <= |Sweep.SweepSpec(grid).value|
    requires Sweeping(c, d, Sweep.SweepSpec(grid).value[..i]).error.Some?
    ensures CmdSweepSpec(d, c, grid) == Sweeping(c, d, Sweep.SweepSpec(grid).value[..i])
  {
    SweepingStopped(c, d, Sweep.SweepSpec(grid).value, i);
  }

  /** A sweep whose loop ran over all pairs. */
  lemma SweepingDoneSpec(d: Store.Disk, c: SweepConfig, grid: seq<Field>)
    requires Sweep.SweepSpec(grid).Ok?
    ensures CmdSweepSpec(d, c, grid) == Sweeping(c, d, Sweep.SweepSpec(grid).value[..|Sweep.SweepSpec(grid).value|])
  {
    var pairs := Sweep.SweepSpec(grid).value;
    assert pairs[..|pairs|] == pairs;
  }

  // ---------------------------------------------------------------------
  // cmd_ls
  // ---------------------------------------------------------------------

  /** The index of the first item that is not a str, if any. */
  function FirstNonStr(items: seq<Json>): (r: Option<nat>)
    ensures r.None? <==> forall i :: 0 <= i < |items| ==> items[i].JStr?
    ensures r.Some? ==> r.value < |items| && !items[r.value].JStr? && forall i :: 0 <= i < r.value ==> items[i].JStr?
  {
    if |items| == 0 then None
    else if !items[0].JStr? then Some(0)
    else
      assert forall i :: 1 <= i < |items| ==> items[i] == items[1..][i - 1];
      match FirstNonStr(items[1..])
      case None => None
      case Some(k) => Some(k + 1)
  }

  /** The text of a list of str items. */
  function Strs(items: seq<Json>): (r: seq<string>)
    requires forall i :: 0 <= i < |items| ==> items[i].JStr?
    ensures |r| == |items| && forall i :: 0 <= i < |items| ==> r[i] == items[i].s
  {
    seq(|items|, i requires 0 <= i < |items| => items[i].s)
  }

  /** `",".join(tags or [])`: str items joined by commas; TypeError for a non-str item or a non-iterable. */
  function JoinTags(tags: Json): (r: Result<string>)
    ensures tags.JArr? && (forall i :: 0 <= i < |tags.items| ==> tags.items[i].JStr?) ==>
      r == Ok(Join(",", Strs(tags.items)))
    ensures Sweep.Truthy(tags) && !(tags.JArr? || tags.JStr? || tags.JObj?) ==> r == Err(TypeError("can only join an iterable"))
    ensures !Sweep.Truthy(tags) ==> r == Ok("")
  {
    var items := if Sweep.Truthy(tags) then Sweep.AsList(tags) else Ok([]);
    if items.Err? then Err(TypeError("can only join an iterable"))
    else
      match FirstNonStr(items.value)
      case Some(k) =>
        Err(TypeError("sequence item " + IntToString(k) + ": expected str instance, "
                      + Sweep.TypeName(items.value[k]) + " found"))
      case None =>
        Ok(Join(",", Strs(items.value)))
  }

  /** One line of `cmd_ls`: `"<run_id> <timestamp or ->"`, then `" [<tags>]"` when the joined tags are not empty. */
  function LsLine(rec: Store.Record): (r: Result<string>)
    ensures r.Ok? <==> JoinTags(rec.tags).Ok?
  {
    var tags := JoinTags(rec.tags);
    if tags.Err? then Err(tags.error)
    else
      var line := rec.runId + " " + TimestampText(rec.timestamp);
      Ok(if |tags.value| > 0 then line + " [" + tags.value + "]" else line)
  }

  /** `run.get("timestamp") or "-"`, as formatted into the line. */
  function TimestampText(timestamp: Json): string
  {
    if Sweep.Truthy(timestamp) then Store.PyStr(timestamp) else "-"
  }

  /** The lines `cmd_ls` prints for `recs`, and the exception that stopped it, if any. */
  function LsLines(recs: seq<Store.Record>): (r: (seq<string>, Option<Error>))
    ensures |r.0| <= |recs|
    ensures r.1.None? ==> |r.0| == |recs|
    decreases |recs|
  {
    if |recs| == 0 then ([], None)
    else
      var (lines, error) := LsLines(recs[..|recs| - 1]);
      if error.Some? then (lines, error)
      else
        var line := LsLine(recs[|recs| - 1]);
        if line.Err? then (lines, Some(line.error)) else (lines + [line.value], None)
  }

  /** `cmd_ls`: one line per listed run, in `list_runs` order. */
  function CmdLsSpec(d: Store.Disk): (seq<string>, Option<Error>)
  {
    var recs := Store.ListRunsSpec(d);
    if recs.Err? then ([], Some(recs.error)) else LsLines(recs.value)
  }

  /** `cmd_ls` prints line `i` for record `i`: until the first record whose tags cannot be joined, and then stops. */
  lemma LsLinesSpec(recs: seq<Store.Record>)
    ensures var (lines, error) := LsLines(recs);
      && (forall i :: 0 <= i < |lines| ==> LsLine(recs[i]) == Ok(lines[i]))
      && (error.None? <==> forall i :: 0 <= i < |recs| ==> LsLine(recs[i]).Ok?)
      && (error.Some? ==> LsLine(recs[|lines|]) == Err(error.value))
  {
    LsLinesPrinted(recs);
    LsLinesError(recs);
  }

  /** Each printed line is its record's line. */
  lemma {:induction false} LsLinesPrinted(recs: seq<Store.Record>)
    ensures var lines := LsLines(recs).0;
      forall i :: 0 <= i < |lines| ==> LsLine(recs[i]) == Ok(lines[i])
    decreases |recs|
  {
    if |recs| > 0 {
      var init := recs[..|recs| - 1];
      LsLinesPrinted(init);
      assert forall i :: 0 <= i < |init| ==> init[i] == recs[i];
      var (lines0, error0) := LsLines(init);
      if error0.None? {
        var line := LsLine(recs[|recs| - 1]);
        assert LsLines(recs).0 == if line.Ok? then lines0 + [line.value] else lines0;
      } else {
        assert LsLines(recs).0 == lines0;
      }
    }
  }

  /** The loop stops exactly at the first record whose line fails. */
  lemma {:induction false} LsLinesError(recs: seq<Store.Record>)
    ensures var (lines, error) := LsLines(recs);
      && (error.None? <==> forall i :: 0 <= i < |recs| ==> LsLine(recs[i]).Ok?)
      && (error.Some? ==> LsLine(recs[|lines|]) == Err(error.value))
    decreases |recs|
  {
    if |recs| > 0 {
      var init := recs[..|recs| - 1];
      LsLinesError(init);
      assert forall i :: 0 <= i < |init| ==> init[i] == recs[i];
      var (lines0, error0) := LsLines(init);
      if error0.None? {
        var line := LsLine(recs[|recs| - 1]);
        assert |lines0| == |init|;
        assert LsLines(recs) == if line.Ok? then (lines0 + [line.value], None) else (lines0, Some(line.error));
      } else {
        assert LsLines(recs) == (lines0, error0);
      }
    }
  }

  /** Python's `s.split(sep)` for a one-character separator. */
  function Split(s: string, sep: char): (parts: seq<string>)
    ensures |parts| >= 1
  {
    if |s| == 0 then [""]
    else
      var rest := Split(s[1..], sep);
      if s[0] == sep then [""] + rest else [[s[0]] + rest[0]] + rest[1..]
  }

  /** A part without the separator followed by the separator splits off as one part. */
  lemma {:induction false} SplitPrefix(a: string, sep: char, b: string)
    requires sep !in a
    ensures Split(a + [sep] + b, sep) == [a] + Split(b, sep)
    decreases |a|
  {
    if |a| > 0 {
      assert (a + [sep] + b)[1..] == a[1..] + [sep] + b;
      SplitPrefix(a[1..], sep, b);
      assert [a[0]] + a[1..] == a;
    } else {
      assert a + [sep] + b == [sep] + b;
    }
  }

  /** A string without the separator is one part. */
  lemma {:induction false} SplitWhole(a: string, sep: char)
    requires sep !in a
    ensures Split(a, sep) == [a]
    decreases |a|
  {
    if |a| > 0 {
      SplitWhole(a[1..], sep);
      assert [a[0]] + a[1..] == a;
    }
  }

  /** Tags without commas are read back from the joined text: `",".join(ts).split(",") == ts`. */
  lemma {:induction false} JoinSplit(parts: seq<string>)
    requires |parts| >= 1
    requires forall i :: 0 <= i < |parts| ==> ',' !in parts[i]
    ensures Split(Join(",", parts), ',') == parts
    decreases |parts|
  {
    if |parts| == 1 {
      SplitWhole(parts[0], ',');
    } else {
      assert forall i :: 0 <= i < |parts| - 1 ==> parts[1..][i] == parts[i + 1];
      JoinSplit(parts[1..]);
      SplitPrefix(parts[0], ',', Join(",", parts[1..]));
      assert Join(",", parts) == parts[0] + [','] + Join(",", parts[1..]);
    }
  }

  /** The joined tags are empty exactly when there are no tags or only one empty tag: only then is `[...]` left off. */
  lemma {:induction false} JoinEmpty(parts: seq<string>)
    ensures Join(",", parts) == "" <==> |parts| == 0 || (|parts| == 1 && parts[0] == "")
  {
    if |parts| >= 2 {
      assert |Join(",", parts)| >= 1;
    }
  }

  /**
   * The run id can be read back from an `ls` line: it is everything before
   * the first space (run ids are hex digests and hold no space), and the
   * timestamp or `-` follows it.
   */
  lemma LsLineRunId(rec: Store.Record)
    requires ' ' !in rec.runId && LsLine(rec).Ok?
    ensures var line := LsLine(rec).value;
      && |rec.runId| < |line| && line[..|rec.runId|] == rec.runId && line[|rec.runId|] == ' '
      && Split(line, ' ')[0] == rec.runId
      && (!Sweep.Truthy(rec.timestamp) ==> line[|rec.runId| + 1] == '-')
  {
    var line := LsLine(rec).value;
    var tail := line[|rec.runId| + 1..];
    assert line == rec.runId + [' '] + tail;
    SplitPrefix(rec.runId, ' ', tail);
  }

  /**
   * The whole `ls` line for a list of str tags: `"<run_id> <timestamp or ->"`,
   * followed by `" [" + joined + "]"` exactly when the joined tags are not empty,
   * and tags without commas can be split back out of it.
   */
  lemma LsLineTags(rec: Store.Record)
    requires rec.tags.JArr? && forall i :: 0 <= i < |rec.tags.items| ==> rec.tags.items[i].JStr?
    ensures var parts := Strs(rec.tags.items);
      var line, joined := LsLine(rec).value, Join(",", parts);
      && LsLine(rec).Ok?
      && (joined == "" <==> |parts| == 0 || (|parts| == 1 && parts[0] == ""))
      && (joined == "" ==> line == rec.runId + " " + TimestampText(rec.timestamp))
      && (joined != "" ==> line == rec.runId + " " + TimestampText(rec.timestamp) + " [" + joined + "]")
      && (joined != "" ==> |line| >= |joined| + 3 && line[|line| - |joined| - 3..] == " [" + joined + "]")
      && (|parts| >= 1 && (forall i :: 0 <= i < |parts| ==> ',' !in parts[i]) ==> Split(joined, ',') == parts)
  {
    var parts := Strs(rec.tags.items);
    JoinEmpty(parts);
    if |parts| >= 1 && (forall i :: 0 <= i < |parts| ==> ',' !in parts[i]) {
      JoinSplit(parts);
    }
  }

  /** `cmd_ls` on an open store: the lines it prints and the exception that stopped it, if any. */
  method CmdLs(stash: Store.SimCache) returns (lines: seq<string>, error: Option<Error>)
    ensures (lines, error) == CmdLsSpec(stash.State())
  {
    var recs := stash.ListRuns();
    if recs.Err? {
      return [], Some(recs.error);
    }
    lines, error := [], None;
    for i := 0 to |recs.value|
      invariant error.None?
      invariant (lines, error) == LsLines(recs.value[..i])
    {
      var line := LsLine(recs.value[i]);
      LsLinesNext(recs.value, i, line);
      if line.Err? {
        error := Some(line.error);
        LsLinesStopped(recs.value, i + 1);
        return;
      }
      lines := lines + [line.value];
    }
    assert recs.value[..|recs.value|] == recs.value;
  }

  /** The lines after record `i` are the lines before it and record `i`'s line. */
  lemma LsLinesNext(recs: seq<Store.Record>, i: nat, line: Result<string>)
    requires i < |recs| && LsLines(recs[..i]).1.None? && line == LsLine(recs[i])
    ensures LsLines(recs[..i + 1])
         == if line.Err? then (LsLines(recs[..i]).0, Some(line.error)) else (LsLines(recs[..i]).0 + [line.value], None)
  {
    var pre := recs[..i + 1];
    assert pre[..|pre| - 1] == recs[..i] && pre[|pre| - 1] == recs[i];
  }

  /** Once a line fails, later records print nothing. */
  lemma {:induction false} LsLinesStopped(recs: seq<Store.Record>, i: nat)
    requires i <= |recs| && LsLines(recs[..i]).1.Some?
    ensures LsLines(recs) == LsLines(recs[..i])
    decreases |recs|
  {
    if i < |recs| {
      var init := recs[..|recs| - 1];
      assert init[..i] == recs[..i];
      LsLinesStopped(init, i);
    } else {
      assert recs[..i] == recs;
    }
  }
}
