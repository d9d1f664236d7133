/**
 * `run` of the multi-target build orchestrator
 * (`Cli/Overrides/MultiCompiler.js`): every target is built once through the
 * dependency scheduler, each build's stats are stored at the target's own
 * position, and the caller gets either the first error or the stats of all
 * targets in target order.
 *
 * The builds are chained one after another (`chainedBuild`), so they finish
 * in the order they were dispatched: `Complete` is the end of the oldest
 * build still running.
 */
module BatchRun {
  import opened Wrappers
  import opened CompilerUnits
  import opened DependencyScheduler

  /** What `run`'s callback receives. */
  datatype RunReport = RunFailed(error: BuildError) | RunSucceeded(stats: seq<Option<Stats>>)

  /** The scheduler's view of one finished build. */
  function SettlementOf(result: Result<Stats, BuildError>): (s: Settlement)
    ensures s != InFlight
    ensures result.Ok? <==> s == Succeeded
    ensures result.Err? ==> s == Failed(result.error)
  {
    if result.Ok? then Succeeded else Failed(result.error)
  }

  /** Each dispatched target is one of the orchestrator's targets. */
  predicate AllIn(ds: seq<Compiler>, compilers: seq<Compiler>) {
    forall k :: 0 <= k < |ds| ==> ds[k] in compilers
  }

  /**
   * `allStats` after the builds of `ds` ended with `results`, in that order:
   * each successful build writes its stats at its target's position.
   */
  function Collected(compilers: seq<Compiler>, ds: seq<Compiler>, results: seq<Result<Stats, BuildError>>)
    : (r: seq<Option<Stats>>)
    requires |ds| == |results| && AllIn(ds, compilers)
    ensures |r| == |compilers|
  {
    if results == [] then seq(|compilers|, _ => None)
    else
      var n := |results| - 1;
      var prev := Collected(compilers, ds[..n], results[..n]);
      if results[n].Ok? then prev[IndexOf(compilers, ds[n]) := Some(results[n].value)] else prev
  }

  /** A filled slot holds the stats of a successful build of the target at that position. */
  lemma {:induction false} CollectedFrom(compilers: seq<Compiler>, ds: seq<Compiler>,
                                         results: seq<Result<Stats, BuildError>>, i: nat)
    requires |ds| == |results| && AllIn(ds, compilers) && i < |compilers|
    requires Collected(compilers, ds, results)[i].Some?
    ensures exists k :: 0 <= k < |ds| && ds[k] == compilers[i] && IndexOf(compilers, ds[k]) == i &&
                        results[k] == Ok(Collected(compilers, ds, results)[i].value)
  {
    var n := |results| - 1;
    var v := Collected(compilers, ds, results)[i].value;
    if results[n].Ok? && IndexOf(compilers, ds[n]) == i {
      assert ds[n] == compilers[i] && results[n] == Ok(v);
    } else {
      CollectedFrom(compilers, ds[..n], results[..n], i);
      var k :| 0 <= k < n && ds[..n][k] == compilers[i] && IndexOf(compilers, ds[..n][k]) == i
        && results[..n][k] == Ok(v);
      assert ds[k] == compilers[i] && results[k] == Ok(v);
    }
  }

  /**
   * A target built once, successfully, has its stats at its position,
   * whatever the order in which the builds ended.
   */
  lemma {:induction false} CollectedAt(compilers: seq<Compiler>, ds: seq<Compiler>,
                                       results: seq<Result<Stats, BuildError>>, k: nat)
    requires |ds| == |results| && AllIn(ds, compilers) && k < |ds|
    requires forall m :: 0 <= m < |ds| && m != k ==> ds[m] != ds[k]
    requires results[k].Ok?
    ensures Collected(compilers, ds, results)[IndexOf(compilers, ds[k])] == Some(results[k].value)
  {
    var n := |results| - 1;
    if k < n {
      assert forall m :: 0 <= m < n && m != k ==> ds[..n][m] != ds[..n][k];
      CollectedAt(compilers, ds[..n], results[..n], k);
      assert IndexOf(compilers, ds[n]) != IndexOf(compilers, ds[k]);
    }
  }

  /** A target that no build ended for keeps `null` at its position. */
  lemma {:induction false} CollectedUnbuilt(compilers: seq<Compiler>, ds: seq<Compiler>,
                                            results: seq<Result<Stats, BuildError>>, i: nat)
    requires |ds| == |results| && AllIn(ds, compilers) && i < |compilers|
    requires forall k :: 0 <= k < |ds| ==> IndexOf(compilers, ds[k]) != i
    ensures Collected(compilers, ds, results)[i].None?
  {
    if results != [] {
      var n := |results| - 1;
      assert forall k :: 0 <= k < n ==> ds[..n][k] == ds[k];
      CollectedUnbuilt(compilers, ds[..n], results[..n], i);
    }
  }

  /**
   * The bookkeeping of `run` against the scheduler's records: the first
   * `next` dispatched builds have ended as `results` says, the others are
   * still running, and `allStats` is what those results wrote.
   */
  ghost predicate Tracks(compilers: seq<Compiler>, ds: seq<Compiler>, st: seq<Settlement>, next: nat,
                         results: seq<Result<Stats, BuildError>>, allStats: seq<Option<Stats>>)
  {
    && next <= |ds| == |st| && |results| == next
    && (forall k :: 0 <= k < next ==> st[k] == SettlementOf(results[k]))
    && (forall k :: next <= k < |ds| ==> st[k] == InFlight)
    && AllIn(ds[..next], compilers)
    && allStats == Collected(compilers, ds[..next], results)
  }

  /** One more ended build extends `allStats` by what it wrote. */
  lemma CollectedSnoc(compilers: seq<Compiler>, ds: seq<Compiler>, results: seq<Result<Stats, BuildError>>,
                      d: Compiler, result: Result<Stats, BuildError>)
    requires |ds| == |results| && AllIn(ds, compilers) && d in compilers
    ensures AllIn(ds + [d], compilers)
    ensures Collected(compilers, ds + [d], results + [result])
         == if result.Ok? then Collected(compilers, ds, results)[IndexOf(compilers, d) := Some(result.value)]
            else Collected(compilers, ds, results)
  {
    assert (ds + [d])[..|ds|] == ds;
    assert (results + [result])[..|results|] == results;
  }

  /** Ending the oldest running build, then dispatching `batch`, keeps the bookkeeping. */
  lemma TracksStep(compilers: seq<Compiler>, ds: seq<Compiler>, st: seq<Settlement>, next: nat,
                   results: seq<Result<Stats, BuildError>>, allStats: seq<Option<Stats>>,
                   result: Result<Stats, BuildError>, batch: seq<Compiler>)
    requires Tracks(compilers, ds, st, next, results, allStats) && next < |ds| && ds[next] in compilers
    ensures Tracks(compilers, ds + batch, st[next := SettlementOf(result)] + Dispatching(|batch|), next + 1,
                   results + [result],
                   if result.Ok? then allStats[IndexOf(compilers, ds[next]) := Some(result.value)] else allStats)
  {
    var ds', st' := ds + batch, st[next := SettlementOf(result)] + Dispatching(|batch|);
    assert ds'[..next + 1] == ds[..next] + [ds[next]];
    CollectedSnoc(compilers, ds[..next], results, ds[next], result);
    assert forall k :: 0 <= k < next ==> st'[k] == st[k];
    assert forall k :: next + 1 <= k < |ds'| ==> st'[k] == InFlight by {
      forall k | next + 1 <= k < |ds'| ensures st'[k] == InFlight {
        if k < |ds| { assert st'[k] == st[k]; } else { assert st'[k] == Dispatching(|batch|)[k - |ds|]; }
      }
    }
  }

  /** One `run` call in progress. */
  class BatchRun {
    /** `this.compilers`. */
    const compilers: seq<Compiler>
    /** The `runWithDependencies` session `run` started. */
    const sched: Scheduler
    /** `allStats`. */
    var allStats: seq<Option<Stats>>
    /** How many dispatched builds have ended. */
    var next: nat
    /** How each ended build ended, in dispatch order. */
    ghost var results: seq<Result<Stats, BuildError>>

    ghost predicate Valid()
      reads this, sched, compilers
    {
      && sched.targets == compilers
      && sched.Valid()
      && Tracks(compilers, sched.dispatched, sched.settlement, next, results, allStats)
    }

    /**
     * `Valid` again after the oldest running build, at position `j` of
     * `ds`, ended with `result` and the scheduler moved on from `st`.
     */
    lemma ValidAfterStep(ds: seq<Compiler>, st: seq<Settlement>, j: nat, before: seq<Result<Stats, BuildError>>,
                         prior: seq<Option<Stats>>, result: Result<Stats, BuildError>, batch: seq<Compiler>)
      requires Tracks(compilers, ds, st, j, before, prior) && j < |ds| && ds[j] in compilers
      requires sched.targets == compilers && sched.Valid()
      requires sched.dispatched == ds + batch && sched.settlement == st[j := SettlementOf(result)] + Dispatching(|batch|)
      requires next == j + 1 && results == before + [result]
      requires allStats == if result.Ok? then prior[IndexOf(compilers, ds[j]) := Some(result.value)] else prior
      ensures Valid()
    {
      TracksStep(compilers, ds, st, j, before, prior, result, batch);
    }

    /**
     * What `run`'s callback has received: nothing while the session is
     * open, then the first error, or the stats of every target.
     */
    function Reported(): Option<RunReport>
      reads this, sched
    {
      match sched.outcome
      case None => None
      case Some(Completed) => Some(RunSucceeded(allStats))
      case Some(Aborted(e)) => Some(RunFailed(e))
    }

    /** `run(callback)` up to the first dispatch. */
    constructor (compilers: seq<Compiler>)
      ensures Valid() && this.compilers == compilers && fresh(sched)
      ensures next == 0 && allStats == seq(|compilers|, _ => None)
      ensures sched.fulfilled == {}
      ensures compilers == [] ==> sched.dispatched == [] && sched.remaining == []
      ensures compilers != [] ==> (sched.dispatched, sched.remaining) == Partition(compilers, {})
      ensures Reported() == if sched.dispatched == [] then Some(RunSucceeded(allStats)) else None
    {
      this.compilers := compilers;
      sched := new Scheduler(compilers);
      allStats := seq(|compilers|, _ => None);
      next := 0;
      results := [];
      new;
      assert sched.dispatched[..0] == [];
    }

    /**
     * The oldest build still running ended with `result`: its stats go to its
     * target's position and the scheduler learns the outcome; the callback
     * fires at most once.
     */
    method Complete(result: Result<Stats, BuildError>)
      requires Valid() && next < |sched.dispatched|
      modifies this`allStats, this`next, this`results, sched
      ensures Valid()
      ensures next == old(next) + 1 && results == old(results) + [result]
      ensures allStats == if result.Ok?
        then old(allStats)[IndexOf(compilers, old(sched.dispatched)[old(next)]) := Some(result.value)]
        else old(allStats)
      ensures result.Err? && old(Reported()).None? ==> Reported() == Some(RunFailed(result.error))
      ensures old(Reported()).Some? ==> Reported() == old(Reported())
      ensures result.Err? ==>
        sched.dispatched == old(sched.dispatched) && sched.remaining == old(sched.remaining)
        && sched.fulfilled == old(sched.fulfilled)
      ensures result.Ok? ==> sched.fulfilled == old(sched.fulfilled) + {old(sched.dispatched)[old(next)].name}
      ensures result.Ok? ==> old(sched.dispatched) <= sched.dispatched
      ensures result.Ok? ==> old(sched.remaining) == [] ==> sched.dispatched == old(sched.dispatched) && sched.remaining == []
      ensures result.Ok? ==> old(sched.remaining) != [] ==>
        (sched.dispatched[|old(sched.dispatched)|..], sched.remaining) == Partition(old(sched.remaining), sched.fulfilled)
      ensures result.Ok? ==> old(Reported()).None? ==> (Reported() == Some(RunSucceeded(allStats)) <==> sched.inFlight == 0)
    {
      if result.Err? {
        Failed(result.error);
      } else {
        Built(result.value);
      }
    }

    /** `compiler.run` of the oldest running build reported the error `e`. */
    method Failed(e: BuildError)
      requires Valid() && next < |sched.dispatched|
      modifies this`next, this`results, sched
      ensures Valid()
      ensures next == old(next) + 1 && results == old(results) + [Err(e)]
      ensures old(Reported()).None? ==> Reported() == Some(RunFailed(e))
      ensures old(Reported()).Some? ==> Reported() == old(Reported())
      ensures sched.dispatched == old(sched.dispatched) && sched.remaining == old(sched.remaining)
        && sched.fulfilled == old(sched.fulfilled)
    {
      var j := next;
      assert sched.dispatched[j] in compilers;
      ghost var ds, st, before := sched.dispatched, sched.settlement, results;
      results := results + [Err(e)];
      next := j + 1;
      sched.Fail(j, e);
      assert ds + [] == ds;
      ValidAfterStep(ds, st, j, before, allStats, Err(e), []);
    }

    /** `compiler.run` of the oldest running build reported `stats`. */
    method Built(stats: Stats)
      requires Valid() && next < |sched.dispatched|
      modifies this`allStats, this`next, this`results, sched
      ensures Valid()
      ensures next == old(next) + 1 && results == old(results) + [Ok(stats)]
      ensures allStats == old(allStats)[IndexOf(compilers, old(sched.dispatched)[old(next)]) := Some(stats)]
      ensures old(Reported()).Some? ==> Reported() == old(Reported())
      ensures sched.fulfilled == old(sched.fulfilled) + {old(sched.dispatched)[old(next)].name}
      ensures old(sched.dispatched) <= sched.dispatched
      ensures old(sched.remaining) == [] ==> sched.dispatched == old(sched.dispatched) && sched.remaining == []
      ensures old(sched.remaining) != [] ==>
        (sched.dispatched[|old(sched.dispatched)|..], sched.remaining) == Partition(old(sched.remaining), sched.fulfilled)
      ensures old(Reported()).None? ==> (Reported() == Some(RunSucceeded(allStats)) <==> sched.inFlight == 0)
    {
      var j := next;
      var c := sched.dispatched[j];
      assert c in compilers;
      var idx := IndexOf(compilers, c);
      ghost var ds, st, prior, before := sched.dispatched, sched.settlement, allStats, results;
      allStats := allStats[idx := Some(stats)];
      results := results + [Ok(stats)];
      next := j + 1;
      var batch := sched.Succeed(j);
      ValidAfterStep(ds, st, j, before, prior, Ok(stats), batch);
    }
  }

  /**
   * A run that succeeds reports, for each target, the stats of its build,
   * or `null` for a target that was never dispatched.
   */
  lemma SucceededReportAligned(r: BatchRun, i: nat)
    requires r.Valid() && r.Reported().Some? && r.Reported().value.RunSucceeded? && i < |r.compilers|
    ensures r.next == |r.sched.dispatched|
    ensures r.Reported().value.stats[i].Some? ==>
      exists k :: 0 <= k < |r.sched.dispatched| && r.sched.dispatched[k] == r.compilers[i] &&
                  r.results[k] == Ok(r.Reported().value.stats[i].value)
    ensures (forall k :: 0 <= k < |r.sched.dispatched| ==> r.sched.dispatched[k] != r.compilers[i])
      ==> r.Reported().value.stats[i].None?
  {
    assert r.sched.outcome == Some(Completed);
    InFlightCountZero(r.sched.settlement);
    var ds := r.sched.dispatched;
    assert ds[..r.next] == ds;
    if r.Reported().value.stats[i].Some? {
      CollectedFrom(r.compilers, ds, r.results, i);
    }
    if forall k :: 0 <= k < |ds| ==> ds[k] != r.compilers[i] {
      CollectedUnbuilt(r.compilers, ds, r.results, i);
    }
  }

  /** With nothing fulfilled, a target is ready exactly when it names no dependency. */
  lemma ReadyAtStart(c: Compiler)
    ensures IsReady(c, {}) <==> c.dependencies.None? || c.dependencies.value == []
  {
    if c.dependencies.Some? && c.dependencies.value != [] {
      assert c.dependencies.value[0] in c.dependencies.value;
    }
  }

  /**
   * Nothing is ready at the start exactly when every target names at least
   * one dependency: a cycle, or a name no target fulfils.
   */
  lemma NoneReadyAtStart(compilers: seq<Compiler>)
    ensures Partition(compilers, {}).0 == [] <==>
      forall k :: 0 <= k < |compilers| ==> compilers[k].dependencies.Some? && compilers[k].dependencies.value != []
  {
    var p := Partition(compilers, {});
    if p.0 == [] {
      forall k | 0 <= k < |compilers|
        ensures compilers[k].dependencies.Some? && compilers[k].dependencies.value != []
      {
        PartitionMembership(compilers, {}, compilers[k]);
        ReadyAtStart(compilers[k]);
      }
    } else {
      var c := p.0[0];
      assert multiset(p.0)[c] > 0;
      assert c in multiset(compilers);
      var k :| 0 <= k < |compilers| && compilers[k] == c;
      ReadyAtStart(c);
    }
  }

  /**
   * When every target waits for some name, nothing is ever dispatched and
   * `run` reports success at once, with `null` for every target, instead of
   * a deadlock error.
   */
  method NoneReadyRun(compilers: seq<Compiler>) returns (report: Option<RunReport>)
    requires forall k :: 0 <= k < |compilers| ==> compilers[k].dependencies.Some? && compilers[k].dependencies.value != []
    ensures report == Some(RunSucceeded(seq(|compilers|, _ => None)))
  {
    NoneReadyAtStart(compilers);
    var run := new BatchRun(compilers);
    report := run.Reported();
  }

  /** An illustration of `NoneReadyAtStart`: two targets that each wait for the other are both blocked at the start. */
  lemma CyclicNoneReady(a: Compiler, b: Compiler)
    requires a.name == "a" && a.dependencies == Some(["b"])
    requires b.name == "b" && b.dependencies == Some(["a"])
    ensures Partition([a, b], {}).0 == []
  {
    assert "b" in a.dependencies.value && "a" in b.dependencies.value;
    assert !IsReady(a, {}) && !IsReady(b, {});
  }

  /** Two targets that each wait for the other: neither is built and `run` succeeds with `[null, null]`. */
  method CyclicTargets() returns (report: Option<RunReport>)
    ensures report == Some(RunSucceeded([None, None]))
  {
    var a := new Compiler("a", Some(["b"]), "/out/a");
    var b := new Compiler("b", Some(["a"]), "/out/b");
    report := NoneReadyRun([a, b]);
    var none: Option<Stats> := None;
    assert seq(2, _ => none) == [none, none];
  }
}
