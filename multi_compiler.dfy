/**
 * The multi-target build orchestrator (`Cli/Overrides/MultiCompiler.js`):
 * its target list, the "done"/"invalid" cycle counter the constructor wires
 * to every target, the `outputPath` getter and the file-system accessors.
 *
 * Every "done" or "invalid" event of one target becomes a call of `OnDone` or
 * `OnInvalid`; what the orchestrator itself emits is appended to `emitted`.
 */
module MultiCompiler {
  import opened Wrappers
  import opened CompilerUnits
  import opened CommonPath
  import opened Strings

  /** The constructor's argument: a list of targets, or an object keyed by target name. */
  datatype Targets = List(list: seq<Compiler>) | Keyed(entries: seq<(string, Compiler)>)

  /** An event the orchestrator emits to its own listeners. */
  datatype Event = Done(stats: seq<Stats>) | Invalid

  /** The number of set flags. */
  function CountTrue(flags: seq<bool>): (n: nat)
    ensures n <= |flags|
  {
    if flags == [] then 0 else CountTrue(flags[..|flags| - 1]) + (if flags[|flags| - 1] then 1 else 0)
  }

  /** Setting or clearing one flag moves the count by at most one, and only when the flag changes. */
  lemma {:induction false} CountTrueUpdate(flags: seq<bool>, i: nat, b: bool)
    requires i < |flags|
    ensures CountTrue(flags[i := b]) == CountTrue(flags) + (if b == flags[i] then 0 else if b then 1 else -1)
  {
    var last := |flags| - 1;
    var f := flags[i := b];
    if i < last {
      assert f[..last] == flags[..last][i := b];
      CountTrueUpdate(flags[..last], i, b);
    } else {
      assert f[..last] == flags[..last];
    }
  }

  /** The count reaches the length exactly when every flag is set. */
  lemma {:induction false} CountTrueAll(flags: seq<bool>)
    ensures CountTrue(flags) == |flags| <==> forall i :: 0 <= i < |flags| ==> flags[i]
  {
    if flags != [] {
      var init := flags[..|flags| - 1];
      CountTrueAll(init);
      assert forall i :: 0 <= i < |init| ==> init[i] == flags[i];
    }
  }

  /** A list of recorded stats with no holes. */
  predicate AllSome(s: seq<Option<Stats>>) {
    forall i :: 0 <= i < |s| ==> s[i].Some?
  }

  /** `new MultiStats(compilerStats)` once every slot is filled. */
  function Values(s: seq<Option<Stats>>): (r: seq<Stats>)
    requires AllSome(s)
    ensures |r| == |s| && forall i :: 0 <= i < |s| ==> s[i] == Some(r[i])
  {
    if s == [] then [] else Values(s[..|s| - 1]) + [s[|s| - 1].value]
  }

  /**
   * The array normalisation of the constructor: a keyed object becomes the
   * list of its values in key order, and each target takes its key as its
   * name (a target listed under several keys keeps the last one).
   */
  method NormalizeTargets(t: Targets) returns (list: seq<Compiler>)
    modifies (if t.Keyed? then set k | 0 <= k < |t.entries| :: t.entries[k].1 else {})`name
    ensures t.List? ==> list == t.list
    ensures t.Keyed? ==> |list| == |t.entries| && forall k :: 0 <= k < |list| ==> list[k] == t.entries[k].1
    ensures t.Keyed? ==> forall k :: 0 <= k < |t.entries| && LastUse(t.entries, k) ==>
      t.entries[k].1.name == t.entries[k].0
  {
    if t.List? {
      return t.list;
    }
    var entries := t.entries;
    list := [];
    for i := 0 to |entries|
      invariant |list| == i && forall k :: 0 <= k < i ==> list[k] == entries[k].1
      invariant forall k :: 0 <= k < i && LastUseBefore(entries, k, i) ==> entries[k].1.name == entries[k].0
    {
      entries[i].1.name := entries[i].0;
      list := list + [entries[i].1];
    }
  }

  /** No later entry of the first `n` holds the same target as entry `k`. */
  ghost predicate LastUseBefore(entries: seq<(string, Compiler)>, k: nat, n: nat)
    requires k < n <= |entries|
  {
    forall m :: k < m < n ==> entries[m].1 != entries[k].1
  }

  /** No later entry holds the same target as entry `k`. */
  ghost predicate LastUse(entries: seq<(string, Compiler)>, k: nat)
    requires k < |entries|
  {
    LastUseBefore(entries, k, |entries|)
  }

  /** The orchestrator. */
  class MultiCompiler {
    const compilers: seq<Compiler>
    /** How many targets have completed their current cycle. */
    var doneCompilers: int
    /** Per target: its current cycle has completed. */
    var compilerDone: seq<bool>
    /** Per target: the stats of its last "done" event, if any. */
    var compilerStats: seq<Option<Stats>>
    /** Everything the orchestrator has emitted, in order. */
    var emitted: seq<Event>

    ghost predicate Valid()
      reads this
    {
      && |compilerDone| == |compilers| && |compilerStats| == |compilers|
      && doneCompilers == CountTrue(compilerDone)
      && forall i :: 0 <= i < |compilers| && compilerDone[i] ==> compilerStats[i].Some?
    }

    constructor (t: Targets)
      modifies (if t.Keyed? then set k | 0 <= k < |t.entries| :: t.entries[k].1 else {})`name
      ensures Valid()
      ensures t.List? ==> compilers == t.list
      ensures t.Keyed? ==> |compilers| == |t.entries| && forall k :: 0 <= k < |compilers| ==> compilers[k] == t.entries[k].1
      ensures t.Keyed? ==> forall k :: 0 <= k < |t.entries| && LastUse(t.entries, k) ==>
        t.entries[k].1.name == t.entries[k].0
      ensures doneCompilers == 0 && emitted == []
      ensures compilerDone == seq(|compilers|, _ => false) && compilerStats == seq(|compilers|, _ => None)
    {
      var list := NormalizeTargets(t);
      compilers := list;
      doneCompilers := 0;
      compilerDone := seq(|list|, _ => false);
      compilerStats := seq(|list|, _ => None);
      emitted := [];
      new;
      assert compilerDone[..|compilerDone|] == compilerDone;
      CountFalse(|list|);
    }

    /**
     * Target `idx` emitted "done" with `stats`: its cycle completes, its
     * stats are recorded, and once every target has completed the combined
     * "done" carries every target's stats in target order.
     */
    method OnDone(idx: nat, stats: Stats)
      requires Valid() && idx < |compilers|
      modifies this`doneCompilers, this`compilerDone, this`compilerStats, this`emitted
      ensures Valid()
      ensures compilerDone == old(compilerDone)[idx := true]
      ensures doneCompilers == old(doneCompilers) + (if old(compilerDone)[idx] then 0 else 1)
      ensures compilerStats == old(compilerStats)[idx := Some(stats)]
      ensures doneCompilers == |compilers| ==> AllSome(compilerStats)
      ensures emitted == old(emitted)
        + if doneCompilers == |compilers| then [Done(Values(compilerStats))] else []
    {
      CountTrueUpdate(compilerDone, idx, true);
      if !compilerDone[idx] {
        compilerDone := compilerDone[idx := true];
        doneCompilers := doneCompilers + 1;
      }
      compilerStats := compilerStats[idx := Some(stats)];
      if doneCompilers == |compilers| {
        CountTrueAll(compilerDone);
        emitted := emitted + [Done(Values(compilerStats))];
      }
    }

    /**
     * Target `idx` emitted "invalid": its cycle is open again (the count
     * drops only if it had completed), and "invalid" is passed on.
     */
    method OnInvalid(idx: nat)
      requires Valid() && idx < |compilers|
      modifies this`doneCompilers, this`compilerDone, this`emitted
      ensures Valid()
      ensures compilerDone == old(compilerDone)[idx := false]
      ensures doneCompilers == old(doneCompilers) - (if old(compilerDone)[idx] then 1 else 0)
      ensures 0 <= doneCompilers < |compilers|
      ensures emitted == old(emitted) + [Invalid]
    {
      CountTrueUpdate(compilerDone, idx, false);
      if compilerDone[idx] {
        compilerDone := compilerDone[idx := false];
        doneCompilers := doneCompilers - 1;
      }
      CountTrueAll(compilerDone);
      emitted := emitted + [Invalid];
    }

    /**
     * The `outputPath` getter: `compilers[0]` of an empty list is a
     * `TypeError`, otherwise the common leading path of all targets.
     */
    method OutputPath() returns (r: Result<string, string>)
      ensures |compilers| == 0 <==> r.Err?
      ensures r.Ok? ==> r.value == CommonOutputPath(OutputPaths(compilers))
    {
      if |compilers| == 0 {
        return Err("Cannot read property 'outputPath' of undefined");
      }
      ghost var paths := OutputPaths(compilers);
      var first := compilers[0].outputPath;
      var commonPath := first;
      assert paths[..0] == [];
      for i := 0 to |compilers|
        invariant commonPath == CommonCandidate(first, paths[..i])
      {
        var path := compilers[i].outputPath;
        ghost var before := commonPath;
        while !(commonPath <= path) && HasSeparator(commonPath)
          invariant ShortenFor(commonPath, path) == ShortenFor(before, path)
          decreases |commonPath|
        {
          commonPath := DropLastSegment(commonPath);
        }
        CommonCandidateSnoc(first, paths[..i], path);
        assert paths[..i + 1] == paths[..i] + [path];
      }
      assert paths[..|compilers|] == paths;
      if commonPath == "" && |first| > 0 && first[0] == '/' {
        return Ok("/");
      }
      return Ok(commonPath);
    }

    /** Reading `inputFileSystem` always throws. */
    method GetInputFileSystem() returns (r: Result<FileSystem, string>)
      ensures r == Err("Cannot read inputFileSystem of a MultiCompiler")
    {
      return Err("Cannot read inputFileSystem of a MultiCompiler");
    }

    /** Reading `outputFileSystem` always throws. */
    method GetOutputFileSystem() returns (r: Result<FileSystem, string>)
      ensures r == Err("Cannot read outputFileSystem of a MultiCompiler")
    {
      return Err("Cannot read outputFileSystem of a MultiCompiler");
    }

    /** Setting `inputFileSystem` hands the value to every target. */
    method SetInputFileSystem(value: Option<FileSystem>)
      modifies set k | 0 <= k < |compilers| :: compilers[k]
      ensures forall k :: 0 <= k < |compilers| ==> compilers[k].inputFileSystem == value
      ensures forall k :: 0 <= k < |compilers| ==>
        compilers[k].outputFileSystem == old(compilers[k].outputFileSystem) && compilers[k].name == old(compilers[k].name)
    {
      for i := 0 to |compilers|
        invariant forall k :: 0 <= k < i ==> compilers[k].inputFileSystem == value
        invariant forall k :: 0 <= k < |compilers| ==>
          compilers[k].outputFileSystem == old(compilers[k].outputFileSystem) && compilers[k].name == old(compilers[k].name)
      {
        compilers[i].inputFileSystem := value;
      }
    }

    /** Setting `outputFileSystem` hands the value to every target. */
    method SetOutputFileSystem(value: Option<FileSystem>)
      modifies set k | 0 <= k < |compilers| :: compilers[k]
      ensures forall k :: 0 <= k < |compilers| ==> compilers[k].outputFileSystem == value
      ensures forall k :: 0 <= k < |compilers| ==>
        compilers[k].inputFileSystem == old(compilers[k].inputFileSystem) && compilers[k].name == old(compilers[k].name)
    {
      for i := 0 to |compilers|
        invariant forall k :: 0 <= k < i ==> compilers[k].outputFileSystem == value
        invariant forall k :: 0 <= k < |compilers| ==>
          compilers[k].inputFileSystem == old(compilers[k].inputFileSystem) && compilers[k].name == old(compilers[k].name)
      {
        compilers[i].outputFileSystem := value;
      }
    }
  }

  /** A fresh flag list counts zero. */
  lemma {:induction false} CountFalse(n: nat)
    ensures CountTrue(seq(n, _ => false)) == 0
  {
    if n > 0 {
      CountFalse(n - 1);
      assert seq(n, _ => false)[..n - 1] == seq(n - 1, _ => false);
    }
  }
}
