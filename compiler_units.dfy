/**
 * The compilation targets that the multi-target build orchestrator drives
 * (`Cli/Overrides/MultiCompiler.js`). A target's own compile, watch and
 * file-system behaviour is external: its results appear in the model as
 * opaque `Stats` and `BuildError` values.
 */
module CompilerUnits {
  import opened Wrappers

  /** The opaque result object one compiler reports (webpack `Stats`). */
  datatype Stats = Stats(id: nat)

  /** The opaque error one compiler reports. */
  datatype BuildError = BuildError(message: string)

  /** An opaque input or output file-system handle. */
  datatype FileSystem = FileSystem(id: nat)

  /** One compilation target: a webpack `Compiler` as the orchestrator sees it. */
  class Compiler {
    /** Assigned by the orchestrator when its targets are given as a keyed object. */
    var name: string
    /** `undefined` is `None`; a list of target names otherwise. */
    const dependencies: Option<seq<string>>
    const outputPath: string
    var inputFileSystem: Option<FileSystem>
    var outputFileSystem: Option<FileSystem>

    constructor (name: string, dependencies: Option<seq<string>>, outputPath: string)
      ensures this.name == name && this.dependencies == dependencies && this.outputPath == outputPath
      ensures inputFileSystem.None? && outputFileSystem.None?
    {
      this.name := name;
      this.dependencies := dependencies;
      this.outputPath := outputPath;
      inputFileSystem := None;
      outputFileSystem := None;
    }
  }

  /** `compilers.indexOf(c)`: the first position of the object `c`, or -1. */
  function IndexOf(compilers: seq<Compiler>, c: Compiler): (i: int)
    ensures -1 <= i < |compilers|
    ensures i == -1 <==> c !in compilers
    ensures i >= 0 ==> compilers[i] == c && c !in compilers[..i]
  {
    if compilers == [] then -1
    else if compilers[0] == c then 0
    else
      var k := IndexOf(compilers[1..], c);
      assert compilers[1..][..(if k < 0 then 0 else k)] == compilers[1..(if k < 0 then 1 else k + 1)];
      if k < 0 then -1 else k + 1
  }

  /** The output paths of the targets, in order. */
  function OutputPaths(compilers: seq<Compiler>): (paths: seq<string>)
    ensures |paths| == |compilers|
    ensures forall i :: 0 <= i < |compilers| ==> paths[i] == compilers[i].outputPath
  {
    seq(|compilers|, i requires 0 <= i < |compilers| => compilers[i].outputPath)
  }
}
