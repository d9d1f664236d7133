/**
 * `watch` of the multi-target build orchestrator
 * (`Cli/Overrides/MultiCompiler.js`): every target is watched once the
 * dependency scheduler dispatches it, the watches start one after another,
 * and the handler gets each error and, whenever every target has reported
 * at least once since the last combined result, the stats that are new.
 *
 * A target's status is `false` before its first stats (`Idle`), `"new"`
 * after stats it has not yet passed on (`Fresh`) and `true` once they went
 * out in a combined result (`Merged`).
 */
module WatchRun {
  import opened Wrappers
  import opened CompilerUnits
  import opened DependencyScheduler

  datatype WatchStatus = Idle | Fresh | Merged

  /** An opaque watch-options object. */
  datatype WatchOption = WatchOption(id: nat)

  /** `watchOptions`: one object for all targets, or an array indexed by target position. */
  datatype WatchOptions = Shared(option: WatchOption) | PerTarget(options: seq<WatchOption>)

  /** What the handler was called with. */
  datatype HandlerCall = HandlerError(error: BuildError) | HandlerStats(stats: seq<Stats>)

  /**
   * `Array.isArray(watchOptions) ? watchOptions[compilerIdx] : watchOptions`;
   * `None` is `undefined`, for a position past the end of the array.
   */
  function OptionsFor(options: WatchOptions, idx: nat): (r: Option<WatchOption>)
    ensures options.Shared? ==> r == Some(options.option)
    ensures options.PerTarget? ==> (r.Some? <==> idx < |options.options|)
    ensures options.PerTarget? && r.Some? ==> r.value == options.options[idx]
  {
    if options.Shared? then Some(options.option)
    else if idx < |options.options| then Some(options.options[idx])
    else None
  }

  /** `compilerStatus.every(Boolean)`. */
  predicate AllReported(status: seq<WatchStatus>) {
    forall i :: 0 <= i < |status| ==> status[i] != Idle
  }

  /** Every target with a status other than `false` has stats recorded. */
  predicate Recorded(allStats: seq<Option<Stats>>, status: seq<WatchStatus>) {
    |allStats| == |status| && forall i :: 0 <= i < |status| && status[i] != Idle ==> allStats[i].Some?
  }

  /** `allStats.filter((s, idx) => compilerStatus[idx] === "new")`. */
  function FreshStats(allStats: seq<Option<Stats>>, status: seq<WatchStatus>): (r: seq<Stats>)
    requires Recorded(allStats, status)
    ensures |r| <= |status|
  {
    if status == [] then []
    else
      var n := |status| - 1;
      assert Recorded(allStats[..n], status[..n]);
      FreshStats(allStats[..n], status[..n]) + (if status[n] == Fresh then [allStats[n].value] else [])
  }

  /** The first combined result, when every target is new, holds every target's stats in order. */
  lemma {:induction false} FreshStatsAllFresh(allStats: seq<Option<Stats>>, status: seq<WatchStatus>)
    requires Recorded(allStats, status)
    requires forall i :: 0 <= i < |status| ==> status[i] == Fresh
    ensures var r := FreshStats(allStats, status);
      |r| == |status| && forall i :: 0 <= i < |status| ==> allStats[i] == Some(r[i])
  {
    if status != [] {
      var n := |status| - 1;
      assert Recorded(allStats[..n], status[..n]);
      FreshStatsAllFresh(allStats[..n], status[..n]);
    }
  }

  /** With no new stats, nothing would be passed on. */
  lemma {:induction false} FreshStatsNone(allStats: seq<Option<Stats>>, status: seq<WatchStatus>)
    requires Recorded(allStats, status)
    requires forall i :: 0 <= i < |status| ==> status[i] != Fresh
    ensures FreshStats(allStats, status) == []
  {
    if status != [] {
      var n := |status| - 1;
      assert Recorded(allStats[..n], status[..n]);
      FreshStatsNone(allStats[..n], status[..n]);
    }
  }

  /**
   * After a combined result, one target's new stats make the next one, and
   * it holds only that target's stats.
   */
  lemma {:induction false} FreshStatsOnly(allStats: seq<Option<Stats>>, status: seq<WatchStatus>, idx: nat)
    requires Recorded(allStats, status) && idx < |status| && status[idx] == Fresh
    requires forall i :: 0 <= i < |status| && i != idx ==> status[i] != Fresh
    ensures FreshStats(allStats, status) == [allStats[idx].value]
  {
    var n := |status| - 1;
    assert Recorded(allStats[..n], status[..n]);
    if idx < n {
      FreshStatsOnly(allStats[..n], status[..n], idx);
    } else {
      FreshStatsNone(allStats[..n], status[..n]);
    }
  }

  /** The scheduler's settlements as watch mode leaves them: succeeded where the first run ended, in flight elsewhere. */
  predicate SettledAs(settlement: seq<Settlement>, succeeded: set<nat>) {
    forall k :: 0 <= k < |settlement| ==> settlement[k] == if k in succeeded then Succeeded else InFlight
  }

  /** The end of the `k`-th first run, then the dispatch of `n` more targets, keeps the correspondence. */
  lemma SettledAsStep(settlement: seq<Settlement>, succeeded: set<nat>, k: nat, n: nat)
    requires SettledAs(settlement, succeeded) && k < |settlement|
    requires forall m :: m in succeeded ==> m < |settlement|
    ensures SettledAs(settlement[k := Succeeded] + Dispatching(n), succeeded + {k})
  {
    var st := settlement[k := Succeeded] + Dispatching(n);
    forall m | 0 <= m < |st| ensures st[m] == if m in succeeded + {k} then Succeeded else InFlight {
      if m >= |settlement| {
        assert st[m] == Dispatching(n)[m - |settlement|];
      }
    }
  }

  /** One `watch` call in progress. */
  class WatchSession {
    /** `this.compilers`. */
    const compilers: seq<Compiler>
    const options: WatchOptions
    /** The `runWithDependencies` session `watch` started. */
    const sched: Scheduler
    /** `allStats`. */
    var allStats: seq<Option<Stats>>
    /** `compilerStatus`. */
    var status: seq<WatchStatus>
    /** Every call of the handler, in order. */
    var handlerCalls: seq<HandlerCall>
    /** Dispatch positions whose watch has started, with the options it got. */
    var watchers: seq<(nat, Option<WatchOption>)>
    /** Dispatch positions that have reported at all (their promise has resolved). */
    var reportedOnce: set<nat>
    /** Dispatch positions whose `firstRun` has ended: they reported without error. */
    var succeeded: set<nat>

    /** The handler-side state alone. */
    ghost predicate StatsValid()
      reads this
    {
      |status| == |compilers| && Recorded(allStats, status)
    }

    ghost predicate Valid()
      reads this, sched, compilers
    {
      && StatsValid()
      && sched.targets == compilers
      && sched.Valid()
      && |watchers| <= |sched.dispatched|
      && SettledAs(sched.settlement, succeeded)
      && (forall k :: k in succeeded ==> k in reportedOnce)
      && (forall k :: k in reportedOnce ==> k < |watchers|)
    }

    /** `Valid` from its parts, once the scheduler step is done. */
    lemma ValidFrom(st: seq<Settlement>)
      requires StatsValid() && sched.targets == compilers && sched.Valid()
      requires |watchers| <= |sched.dispatched| && st == sched.settlement && SettledAs(st, succeeded)
      requires (forall k :: k in succeeded ==> k in reportedOnce) && (forall k :: k in reportedOnce ==> k < |watchers|)
      ensures Valid()
    {
    }

    /** `watch(watchOptions, handler)` up to the first dispatch. */
    constructor (compilers: seq<Compiler>, options: WatchOptions)
      ensures Valid() && this.compilers == compilers && this.options == options && fresh(sched)
      ensures allStats == seq(|compilers|, _ => None) && status == seq(|compilers|, _ => Idle)
      ensures handlerCalls == [] && watchers == []
      ensures sched.fulfilled == {}
      ensures compilers == [] ==> sched.dispatched == [] && sched.remaining == []
      ensures compilers != [] ==> (sched.dispatched, sched.remaining) == Partition(compilers, {})
    {
      this.compilers := compilers;
      this.options := options;
      sched := new Scheduler(compilers);
      allStats := seq(|compilers|, _ => None);
      status := seq(|compilers|, _ => Idle);
      handlerCalls := [];
      watchers := [];
      reportedOnce := {};
      succeeded := {};
    }

    /**
     * The next link of `chainedWatching`: the next dispatched target starts
     * watching once the one before it has reported, with its own options.
     */
    method Start()
      requires Valid() && |watchers| < |sched.dispatched|
      requires |watchers| == 0 || |watchers| - 1 in reportedOnce
      modifies this`watchers
      ensures Valid()
      ensures var k := old(|watchers|);
        watchers == old(watchers) + [(k, OptionsFor(options, IndexOf(compilers, sched.dispatched[k])))]
    {
      var k := |watchers|;
      var c := sched.dispatched[k];
      assert c in compilers;
      var idx := IndexOf(compilers, c);
      watchers := watchers + [(k, OptionsFor(options, idx))];
    }

    /**
     * The stats part of the watch handler for the target at position `idx`:
     * its stats become new, and once every target has reported, the new
     * stats go to the handler and every status becomes `true`.
     */
    method RecordStats(idx: nat, stats: Stats)
      requires StatsValid() && idx < |compilers|
      modifies this`allStats, this`status, this`handlerCalls
      ensures StatsValid()
      ensures allStats == old(allStats)[idx := Some(stats)]
      ensures var marked := old(status)[idx := Fresh];
        && status == (if AllReported(marked) then seq(|compilers|, _ => Merged) else marked)
        && handlerCalls == old(handlerCalls)
             + if AllReported(marked) then [HandlerStats(FreshStats(allStats, marked))] else []
    {
      allStats := allStats[idx := Some(stats)];
      status := status[idx := Fresh];
      if forall i :: 0 <= i < |status| ==> status[i] != Idle {
        var freshStats := FreshStats(allStats, status);
        status := seq(|status|, _ => Merged);
        handlerCalls := handlerCalls + [HandlerStats(freshStats)];
      }
    }

    /**
     * The watch handler of the `k`-th dispatched target, called with an
     * error, stats, or both. The first call without an error ends that
     * target's step in the scheduler, so its dependents get dispatched.
     */
    method Report(k: nat, err: Option<BuildError>, stats: Option<Stats>)
      requires Valid() && k < |watchers|
      modifies this`allStats, this`status, this`handlerCalls, this`reportedOnce, this`succeeded, sched
      ensures Valid()
      ensures var idx := IndexOf(compilers, old(sched.dispatched)[k]);
        && 0 <= idx < |compilers|
        && allStats == (if stats.Some? then old(allStats)[idx := stats] else old(allStats))
        && var marked := old(status)[idx := Fresh];
           && status == (if stats.None? then old(status)
                         else if AllReported(marked) then seq(|compilers|, _ => Merged) else marked)
           && handlerCalls == old(handlerCalls)
                + (if err.Some? then [HandlerError(err.value)] else [])
                + (if stats.Some? && AllReported(marked) then [HandlerStats(FreshStats(allStats, marked))] else [])
      ensures reportedOnce == old(reportedOnce) + {k}
      ensures succeeded == if err.None? then old(succeeded) + {k} else old(succeeded)
      ensures err.None? && k !in old(succeeded) ==>
        && sched.fulfilled == old(sched.fulfilled) + {old(sched.dispatched)[k].name}
        && old(sched.dispatched) <= sched.dispatched
        && (old(sched.remaining) == [] ==> sched.dispatched == old(sched.dispatched) && sched.remaining == [])
        && (old(sched.remaining) != [] ==>
              (sched.dispatched[|old(sched.dispatched)|..], sched.remaining)
              == Partition(old(sched.remaining), sched.fulfilled))
      ensures err.Some? || k in old(succeeded) ==>
        && sched.dispatched == old(sched.dispatched) && sched.remaining == old(sched.remaining)
        && sched.fulfilled == old(sched.fulfilled) && sched.settlement == old(sched.settlement)
    {
      var c := sched.dispatched[k];
      assert c in compilers;
      var idx := IndexOf(compilers, c);
      Notify(idx, err, stats);
      reportedOnce := reportedOnce + {k};
      if err.None? && k !in succeeded {
        EndFirstRun(k);
      }
    }

    /** The handler calls of one report of the target at position `idx`. */
    method Notify(idx: nat, err: Option<BuildError>, stats: Option<Stats>)
      requires StatsValid() && idx < |compilers|
      modifies this`allStats, this`status, this`handlerCalls
      ensures StatsValid()
      ensures allStats == (if stats.Some? then old(allStats)[idx := stats] else old(allStats))
      ensures var marked := old(status)[idx := Fresh];
        && status == (if stats.None? then old(status)
                      else if AllReported(marked) then seq(|compilers|, _ => Merged) else marked)
        && handlerCalls == old(handlerCalls)
             + (if err.Some? then [HandlerError(err.value)] else [])
             + (if stats.Some? && AllReported(marked) then [HandlerStats(FreshStats(allStats, marked))] else [])
    {
      if err.Some? {
        handlerCalls := handlerCalls + [HandlerError(err.value)];
      }
      if stats.Some? {
        RecordStats(idx, stats.value);
      }
    }

    /**
     * `firstRun && !err`: the step of the `k`-th dispatched target ends in
     * the scheduler, which marks its name fulfilled and dispatches again.
     */
    method EndFirstRun(k: nat)
      requires Valid() && k < |watchers| && k in reportedOnce && k !in succeeded
      modifies this`succeeded, sched
      ensures Valid()
      ensures succeeded == old(succeeded) + {k}
      ensures sched.fulfilled == old(sched.fulfilled) + {old(sched.dispatched)[k].name}
      ensures old(sched.dispatched) <= sched.dispatched
      ensures old(sched.remaining) == [] ==> sched.dispatched == old(sched.dispatched) && sched.remaining == []
      ensures old(sched.remaining) != [] ==>
        (sched.dispatched[|old(sched.dispatched)|..], sched.remaining) == Partition(old(sched.remaining), sched.fulfilled)
    {
      ghost var st := sched.settlement;
      succeeded := succeeded + {k};
      var batch := sched.Succeed(k);
      SettledAsStep(st, old(succeeded), k, |batch|);
      ValidFrom(st[k := Succeeded] + Dispatching(|batch|));
    }
  }

  /** Errors in watch mode go to the handler only: the scheduler never sees a failure. */
  lemma WatchNeverAborts(w: WatchSession)
    requires w.Valid()
    ensures NoFailure(w.sched.settlement)
    ensures w.sched.outcome.Some? ==> w.sched.outcome.value.Completed?
  {
    assert NoFailure(w.sched.settlement);
  }
}
