/**
 * `runWithDependencies` of the multi-target build orchestrator
 * (`Cli/Overrides/MultiCompiler.js`): a scheduler that hands out the targets
 * whose dependencies are fulfilled, marks a target's name fulfilled when its
 * step succeeds, and reports the outcome to a single final callback.
 *
 * The asynchronous callbacks become method calls: the constructor is the
 * first `runCompilers` pass and `Finish` is the step callback of one
 * dispatched target. Every successful step runs `runCompilers` again inside
 * its own `asyncLib.map` iteration, so the final callback fires with success
 * exactly when the last dispatched target has settled without error and
 * nothing new became ready, and fires with the first error otherwise.
 */
module DependencyScheduler {
  import opened Wrappers
  import opened CompilerUnits

  /** `!c.dependencies || c.dependencies.every(isDependencyFulfilled)`. */
  predicate IsReady(c: Compiler, fulfilled: set<string>) {
    c.dependencies.None? || forall d :: d in c.dependencies.value ==> d in fulfilled
  }

  /**
   * The loop of `getReadyCompilers` as a function: the ready targets and the
   * new remaining list, both in the order of `list`.
   */
  function Partition(list: seq<Compiler>, fulfilled: set<string>): (p: (seq<Compiler>, seq<Compiler>))
    ensures forall c :: c in p.0 ==> IsReady(c, fulfilled)
    ensures forall c :: c in p.1 ==> !IsReady(c, fulfilled)
    ensures multiset(p.0) + multiset(p.1) == multiset(list)
  {
    if list == [] then ([], [])
    else
      var c := list[|list| - 1];
      var (ready, blocked) := Partition(list[..|list| - 1], fulfilled);
      assert list == list[..|list| - 1] + [c];
      if IsReady(c, fulfilled) then (ready + [c], blocked) else (ready, blocked + [c])
  }

  /** `a` is `b` with some elements left out. */
  ghost predicate SubsequenceOf<T>(a: seq<T>, b: seq<T>)
    decreases |b|
  {
    if a == [] then true
    else if b == [] then false
    else
      || (a[|a| - 1] == b[|b| - 1] && SubsequenceOf(a[..|a| - 1], b[..|b| - 1]))
      || SubsequenceOf(a, b[..|b| - 1])
  }

  /** Both halves of the partition keep the relative order of the list. */
  lemma {:induction false} PartitionKeepsOrder(list: seq<Compiler>, fulfilled: set<string>)
    ensures SubsequenceOf(Partition(list, fulfilled).0, list)
    ensures SubsequenceOf(Partition(list, fulfilled).1, list)
  {
    if list != [] {
      var init := list[..|list| - 1];
      PartitionKeepsOrder(init, fulfilled);
      var (r, b) := Partition(init, fulfilled);
      assert list[..|list| - 1] == init;
      var (r', b') := Partition(list, fulfilled);
      if IsReady(list[|list| - 1], fulfilled) {
        assert r'[..|r'| - 1] == r && b' == b;
      } else {
        assert b'[..|b'| - 1] == b && r' == r;
      }
    }
  }

  /** A target of the list lands in the ready half exactly when it is ready. */
  lemma PartitionMembership(list: seq<Compiler>, fulfilled: set<string>, c: Compiler)
    requires c in list
    ensures c in Partition(list, fulfilled).0 <==> IsReady(c, fulfilled)
    ensures c in Partition(list, fulfilled).1 <==> !IsReady(c, fulfilled)
  {
    var p := Partition(list, fulfilled);
    assert multiset(list)[c] > 0;
    assert c in multiset(p.0) || c in multiset(p.1);
  }

  /** How one dispatched target's step ended, as far as the scheduler knows. */
  datatype Settlement = InFlight | Succeeded | Failed(error: BuildError)

  /** What the final callback of `runWithDependencies` received. */
  datatype Outcome = Completed | Aborted(error: BuildError)

  /** The settlements of a freshly dispatched batch of `n` targets. */
  function Dispatching(n: nat): (s: seq<Settlement>)
    ensures |s| == n && forall k :: 0 <= k < n ==> s[k] == InFlight
  {
    seq(n, _ => InFlight)
  }

  /** The number of dispatched targets whose step has not called back. */
  function InFlightCount(s: seq<Settlement>): (n: nat)
    ensures n <= |s|
  {
    if s == [] then 0 else InFlightCount(s[..|s| - 1]) + (if s[|s| - 1] == InFlight then 1 else 0)
  }

  lemma {:induction false} InFlightCountSettle(s: seq<Settlement>, j: nat, x: Settlement)
    requires j < |s| && s[j] == InFlight && x != InFlight
    ensures InFlightCount(s[j := x]) == InFlightCount(s) - 1
  {
    var t := s[j := x];
    if j < |s| - 1 {
      assert t[..|t| - 1] == s[..|s| - 1][j := x];
      InFlightCountSettle(s[..|s| - 1], j, x);
    } else {
      assert t[..|t| - 1] == s[..|s| - 1];
    }
  }

  lemma {:induction false} InFlightCountAppend(s: seq<Settlement>, n: nat)
    ensures InFlightCount(s + Dispatching(n)) == InFlightCount(s) + n
  {
    if n > 0 {
      InFlightCountAppend(s, n - 1);
      var t := s + Dispatching(n);
      assert t[..|t| - 1] == s + Dispatching(n - 1);
      assert t[|t| - 1] == InFlight;
    } else {
      assert s + Dispatching(n) == s;
    }
  }

  /** The names of the dispatched targets whose step succeeded. */
  ghost function SucceededNames(dispatched: seq<Compiler>, settlement: seq<Settlement>): set<string>
    requires |settlement| == |dispatched|
    reads dispatched
  {
    if dispatched == [] then {}
    else
      var last := |dispatched| - 1;
      SucceededNames(dispatched[..last], settlement[..last])
        + (if settlement[last] == Succeeded then {dispatched[last].name} else {})
  }

  lemma {:induction false} SucceededNamesAppend(ds: seq<Compiler>, st: seq<Settlement>, batch: seq<Compiler>)
    requires |st| == |ds|
    ensures SucceededNames(ds + batch, st + Dispatching(|batch|)) == SucceededNames(ds, st)
  {
    if batch != [] {
      var b := batch[..|batch| - 1];
      SucceededNamesAppend(ds, st, b);
      assert (ds + batch)[..|ds| + |b|] == ds + b;
      assert (st + Dispatching(|batch|))[..|st| + |b|] == st + Dispatching(|b|);
    } else {
      assert ds + batch == ds && st + Dispatching(0) == st;
    }
  }

  lemma {:induction false} SucceededNamesSettle(ds: seq<Compiler>, st: seq<Settlement>, j: nat, x: Settlement)
    requires |st| == |ds| && j < |st| && st[j] == InFlight
    ensures SucceededNames(ds, st[j := x])
         == SucceededNames(ds, st) + (if x == Succeeded then {ds[j].name} else {})
  {
    var last := |ds| - 1;
    if j < last {
      assert st[j := x][..last] == st[..last][j := x];
      SucceededNamesSettle(ds[..last], st[..last], j, x);
    } else {
      assert st[j := x][..last] == st[..last];
    }
  }

  /** A count of zero means no dispatched target is still in flight. */
  lemma {:induction false} InFlightCountZero(s: seq<Settlement>)
    ensures InFlightCount(s) == 0 <==> forall j :: 0 <= j < |s| ==> s[j] != InFlight
  {
    if s != [] {
      InFlightCountZero(s[..|s| - 1]);
      assert forall j :: 0 <= j < |s| - 1 ==> s[..|s| - 1][j] == s[j];
    }
  }

  predicate NoFailure(s: seq<Settlement>) {
    forall j :: 0 <= j < |s| ==> !s[j].Failed?
  }

  /**
   * The bookkeeping of a session, on its values: every target is dispatched,
   * in `batch` or remaining, exactly once; the in-flight count and the
   * fulfilled names agree with the settlements; only ready targets are
   * handed out; an abort names a recorded failure.
   */
  ghost predicate AccountedState(targets: seq<Compiler>, dispatched: seq<Compiler>, batch: seq<Compiler>,
                                 remaining: seq<Compiler>, settlement: seq<Settlement>, inFlight: nat,
                                 fulfilled: set<string>, outcome: Option<Outcome>)
    reads targets
  {
    && multiset(dispatched) + multiset(batch) + multiset(remaining) == multiset(targets)
    && |settlement| == |dispatched|
    && inFlight == InFlightCount(settlement)
    && (forall j :: 0 <= j < |dispatched| ==> dispatched[j] in targets)
    && (forall c :: c in dispatched ==> IsReady(c, fulfilled))
    && (forall c :: c in batch ==> c in targets && IsReady(c, fulfilled))
    && fulfilled == SucceededNames(dispatched, settlement)
    && (outcome.Some? && outcome.value.Aborted? ==> Failed(outcome.value.error) in settlement)
  }

  /** Handing `batch` to the step function keeps the bookkeeping, and adds no failure. */
  lemma DispatchKeepsAccounts(targets: seq<Compiler>, dispatched: seq<Compiler>, batch: seq<Compiler>,
                              remaining: seq<Compiler>, settlement: seq<Settlement>, inFlight: nat,
                              fulfilled: set<string>, outcome: Option<Outcome>)
    requires AccountedState(targets, dispatched, batch, remaining, settlement, inFlight, fulfilled, outcome)
    ensures AccountedState(targets, dispatched + batch, [], remaining, settlement + Dispatching(|batch|),
                           inFlight + |batch|, fulfilled, outcome)
    ensures NoFailure(settlement) ==> NoFailure(settlement + Dispatching(|batch|))
  {
    var st := settlement + Dispatching(|batch|);
    SucceededNamesAppend(dispatched, settlement, batch);
    InFlightCountAppend(settlement, |batch|);
    assert multiset(dispatched + batch) == multiset(dispatched) + multiset(batch);
    assert forall j :: 0 <= j < |dispatched| + |batch| ==> (dispatched + batch)[j] in targets by {
      forall j | 0 <= j < |dispatched| + |batch| ensures (dispatched + batch)[j] in targets {
        if j >= |dispatched| {
          assert (dispatched + batch)[j] == batch[j - |dispatched|];
        }
      }
    }
    if outcome.Some? && outcome.value.Aborted? {
      var k :| 0 <= k < |settlement| && settlement[k] == Failed(outcome.value.error);
      assert st[k] == Failed(outcome.value.error);
    }
    assert NoFailure(settlement) ==> NoFailure(st) by {
      if NoFailure(settlement) {
        forall j | 0 <= j < |st| ensures !st[j].Failed? {
          if j < |settlement| { assert st[j] == settlement[j]; }
        }
      }
    }
  }

  /** The state of one `runWithDependencies` session. */
  class Scheduler {
    /** The `compilers` argument. */
    ghost const targets: seq<Compiler>
    /** The true entries of `fulfilledNames`. */
    var fulfilled: set<string>
    /** `remainingCompilers`. */
    var remaining: seq<Compiler>
    /** Every target handed to the step function so far, in dispatch order. */
    var dispatched: seq<Compiler>
    /** How each dispatched target's step has ended so far. */
    var settlement: seq<Settlement>
    var inFlight: nat
    /** The final callback's argument, once it has been called. */
    var outcome: Option<Outcome>

    /**
     * The invariants of a pass in which `batch` has been taken out of
     * `remaining` and not yet handed to the step function.
     */
    ghost predicate Accounted(batch: seq<Compiler>)
      reads this, targets
    {
      AccountedState(targets, dispatched, batch, remaining, settlement, inFlight, fulfilled, outcome)
    }

    /** The invariants that hold between two passes. */
    ghost predicate Consistent()
      reads this, targets
    {
      Accounted([])
    }

    ghost predicate Valid()
      reads this, targets
    {
      && Consistent()
      && (outcome.None? ==> inFlight > 0 && NoFailure(settlement))
      && (outcome == Some(Completed) ==> inFlight == 0 && NoFailure(settlement))
    }

    /** `runWithDependencies(compilers, fn, callback)` up to the first dispatch. */
    constructor (targets: seq<Compiler>)
      ensures Valid() && this.targets == targets
      ensures fulfilled == {} && settlement == Dispatching(|dispatched|)
      ensures targets == [] ==> dispatched == [] && remaining == []
      ensures targets != [] ==> (dispatched, remaining) == Partition(targets, {})
      ensures outcome == if dispatched == [] then Some(Completed) else None
    {
      this.targets := targets;
      fulfilled := {};
      remaining := targets;
      dispatched := [];
      settlement := [];
      inFlight := 0;
      outcome := None;
      new;
      var batch := RunCompilers();
      assert settlement == [] + Dispatching(|batch|);
      assert dispatched == batch;
    }

    /** `getReadyCompilers`. */
    method GetReadyCompilers() returns (ready: seq<Compiler>)
      modifies this`remaining
      ensures (ready, remaining) == Partition(old(remaining), fulfilled)
    {
      var list := remaining;
      ready := [];
      remaining := [];
      for i := 0 to |list|
        invariant (ready, remaining) == Partition(list[..i], fulfilled)
      {
        var c := list[i];
        assert list[..i + 1][..i] == list[..i];
        if IsReady(c, fulfilled) {
          ready := ready + [c];
        } else {
          remaining := remaining + [c];
        }
      }
      assert list[..|list|] == list;
    }

    /**
     * `runCompilers`: nothing when no target remains, otherwise dispatch the
     * ready batch; the final callback fires with success when nothing is in
     * flight any more.
     */
    method RunCompilers() returns (batch: seq<Compiler>)
      requires Consistent() && outcome != Some(Completed)
      requires outcome.None? ==> NoFailure(settlement)
      modifies this`remaining, this`dispatched, this`settlement, this`inFlight, this`outcome
      ensures Valid()
      ensures old(remaining) == [] ==> batch == [] && remaining == []
      ensures old(remaining) != [] ==> (batch, remaining) == Partition(old(remaining), fulfilled)
      ensures dispatched == old(dispatched) + batch
      ensures settlement == old(settlement) + Dispatching(|batch|)
      ensures inFlight == old(inFlight) + |batch|
      ensures outcome == if old(outcome).None? && inFlight == 0 then Some(Completed) else old(outcome)
    {
      batch := [];
      if remaining != [] {
        ghost var before := remaining;
        batch := GetReadyCompilers();
        assert multiset(batch) + multiset(remaining) == multiset(before);
        forall c | c in batch ensures IsReady(c, fulfilled) && c in targets {
          assert multiset(batch)[c] > 0;
          assert multiset(before)[c] > 0;
          assert multiset(targets)[c] > 0;
        }
      }
      Dispatch(batch);
    }

    /**
     * Hand `batch` to the step function: each target becomes in flight, and
     * the final callback fires with success when nothing is in flight.
     */
    method Dispatch(batch: seq<Compiler>)
      requires Accounted(batch) && outcome != Some(Completed)
      requires outcome.None? ==> NoFailure(settlement)
      modifies this`dispatched, this`settlement, this`inFlight, this`outcome
      ensures Valid()
      ensures dispatched == old(dispatched) + batch
      ensures settlement == old(settlement) + Dispatching(|batch|)
      ensures inFlight == old(inFlight) + |batch|
      ensures outcome == if old(outcome).None? && inFlight == 0 then Some(Completed) else old(outcome)
    {
      DispatchKeepsAccounts(targets, dispatched, batch, remaining, settlement, inFlight, fulfilled, outcome);
      dispatched := dispatched + batch;
      settlement := settlement + Dispatching(|batch|);
      inFlight := inFlight + |batch|;
      if outcome.None? && inFlight == 0 {
        outcome := Some(Completed);
      }
    }

    /**
     * The step callback of the `j`-th dispatched target: `err` is the error
     * it reported, if any. An error goes to the final callback (if nothing
     * went there before); a success marks the target's name fulfilled and
     * runs `runCompilers` again.
     */
    method Finish(j: nat, err: Option<BuildError>) returns (batch: seq<Compiler>)
      requires Valid() && j < |dispatched| && settlement[j] == InFlight
      modifies this
      ensures Valid()
      ensures dispatched == old(dispatched) + batch
      ensures settlement == old(settlement)[j := if err.None? then Succeeded else Failed(err.value)]
                            + Dispatching(|batch|)
      ensures inFlight == old(inFlight) - 1 + |batch|
      ensures err.Some? ==> batch == [] && remaining == old(remaining) && fulfilled == old(fulfilled)
      ensures err.Some? ==> outcome == if old(outcome).None? then Some(Aborted(err.value)) else old(outcome)
      ensures err.None? ==> fulfilled == old(fulfilled) + {dispatched[j].name}
      ensures err.None? && old(remaining) == [] ==> batch == [] && remaining == []
      ensures err.None? && old(remaining) != [] ==> (batch, remaining) == Partition(old(remaining), fulfilled)
      ensures err.None? ==> outcome == if old(outcome).None? && inFlight == 0 then Some(Completed) else old(outcome)
    {
      if err.Some? {
        Fail(j, err.value);
        batch := [];
      } else {
        batch := Succeed(j);
      }
    }

    /** The step callback of the `j`-th dispatched target when it reported `e`. */
    method Fail(j: nat, e: BuildError)
      requires Valid() && j < |dispatched| && settlement[j] == InFlight
      modifies this`settlement, this`inFlight, this`outcome
      ensures Valid()
      ensures settlement == old(settlement)[j := Failed(e)]
      ensures inFlight == old(inFlight) - 1
      ensures outcome == if old(outcome).None? then Some(Aborted(e)) else old(outcome)
    {
      ghost var oldSettlement := settlement;
      SucceededNamesSettle(dispatched, settlement, j, Failed(e));
      InFlightCountSettle(settlement, j, Failed(e));
      settlement := settlement[j := Failed(e)];
      inFlight := inFlight - 1;
      if outcome.None? {
        outcome := Some(Aborted(e));
        assert settlement[j] == Failed(e);
      } else if outcome.value.Aborted? {
        ghost var k :| 0 <= k < |oldSettlement| && oldSettlement[k] == Failed(outcome.value.error);
        assert k != j && settlement[k] == Failed(outcome.value.error);
      }
    }

    /**
     * The step callback of the `j`-th dispatched target when it succeeded:
     * its name becomes fulfilled and `runCompilers` runs again.
     */
    method Succeed(j: nat) returns (batch: seq<Compiler>)
      requires Valid() && j < |dispatched| && settlement[j] == InFlight
      modifies this`fulfilled, this`remaining, this`dispatched, this`settlement, this`inFlight, this`outcome
      ensures Valid()
      ensures dispatched == old(dispatched) + batch
      ensures settlement == old(settlement)[j := Succeeded] + Dispatching(|batch|)
      ensures inFlight == old(inFlight) - 1 + |batch|
      ensures fulfilled == old(fulfilled) + {dispatched[j].name}
      ensures old(remaining) == [] ==> batch == [] && remaining == []
      ensures old(remaining) != [] ==> (batch, remaining) == Partition(old(remaining), fulfilled)
      ensures outcome == if old(outcome).None? && inFlight == 0 then Some(Completed) else old(outcome)
    {
      ghost var oldSettlement := settlement;
      SucceededNamesSettle(dispatched, settlement, j, Succeeded);
      InFlightCountSettle(settlement, j, Succeeded);
      settlement := settlement[j := Succeeded];
      inFlight := inFlight - 1;
      if outcome.Some? && outcome.value.Aborted? {
        ghost var k :| 0 <= k < |oldSettlement| && oldSettlement[k] == Failed(outcome.value.error);
        assert k != j && settlement[k] == Failed(outcome.value.error);
      }
      assert NoFailure(oldSettlement) ==> NoFailure(settlement);
      fulfilled := fulfilled + {dispatched[j].name};
      forall c | c in dispatched ensures IsReady(c, fulfilled) {
        assert IsReady(c, old(fulfilled));
      }
      batch := RunCompilers();
    }
  }

  /** No element of `s` appears twice. */
  predicate Distinct<T(==)>(s: seq<T>) {
    forall i, j :: 0 <= i < j < |s| ==> s[i] != s[j]
  }

  /** A list without repeats holds each element at most once. */
  lemma {:induction false} DistinctCount<T>(s: seq<T>, x: T)
    requires Distinct(s)
    ensures multiset(s)[x] <= 1
  {
    if s != [] {
      var n := |s| - 1;
      assert s == s[..n] + [s[n]];
      DistinctCount(s[..n], x);
      if s[n] == x {
        assert forall k :: 0 <= k < n ==> s[..n][k] != x;
      }
    }
  }

  /** An element found at two positions is counted at least twice. */
  lemma TwiceCounted<T>(s: seq<T>, i: nat, j: nat)
    requires i < j < |s|
    ensures s[i] == s[j] ==> multiset(s)[s[i]] >= 2
  {
    assert s == s[..i] + [s[i]] + s[i + 1..j] + [s[j]] + s[j + 1..];
  }

  /**
   * Dispatch takes a target out of `remainingCompilers` for good: with
   * distinct targets, no target is handed to the step function twice.
   */
  lemma DispatchedAtMostOnce(s: Scheduler)
    requires s.Valid() && Distinct(s.targets)
    ensures Distinct(s.dispatched)
  {
    assert multiset(s.dispatched) + multiset(s.remaining) == multiset(s.targets);
    forall i, j | 0 <= i < j < |s.dispatched| ensures s.dispatched[i] != s.dispatched[j] {
      TwiceCounted(s.dispatched, i, j);
      DistinctCount(s.targets, s.dispatched[i]);
    }
  }
}
