/**
 * The `outputPath` getter of the multi-target build orchestrator
 * (`Cli/Overrides/MultiCompiler.js`): the longest leading part of the first
 * target's output path, cut at path separators, that every target's output
 * path starts with. Paths are compared character by character
 * (`indexOf(commonPath) === 0`), not segment by segment.
 */
module CommonPath {
  import opened Strings

  /** `p.replace(/[\/\\][^\/\\]*$/, "")`: drop the last separator and what follows it. */
  function DropLastSegment(p: string): (r: string)
    requires HasSeparator(p)
    ensures r < p
  {
    p[..LastSeparator(p)]
  }

  /** Every path starts with `p`. */
  predicate PrefixOfAll(p: string, paths: seq<string>) {
    forall k :: 0 <= k < |paths| ==> p <= paths[k]
  }

  /**
   * The inner `while` loop for one target's path: shorten `p` until it is a
   * prefix of `path` or holds no separator.
   */
  function ShortenFor(p: string, path: string): (r: string)
    ensures r <= p
    ensures r <= path || !HasSeparator(r)
    decreases |p|
  {
    if p <= path || !HasSeparator(p) then p else ShortenFor(DropLastSegment(p), path)
  }

  /**
   * Reference definition: walking down from `p` one segment at a time, the
   * first candidate that is a prefix of every path, or the separator-free
   * candidate the walk ends on.
   */
  function CommonCandidate(p: string, paths: seq<string>): (r: string)
    decreases |p|
  {
    if PrefixOfAll(p, paths) || !HasSeparator(p) then p
    else CommonCandidate(DropLastSegment(p), paths)
  }

  /** The whole getter for a non-empty list of output paths. */
  function CommonOutputPath(paths: seq<string>): string
    requires |paths| > 0
  {
    var c := CommonCandidate(paths[0], paths);
    if c == "" && |paths[0]| > 0 && paths[0][0] == '/' then "/" else c
  }

  /** Processing one more path with the inner loop extends the reference definition by that path. */
  lemma {:induction false} CommonCandidateSnoc(p: string, paths: seq<string>, path: string)
    ensures CommonCandidate(p, paths + [path]) == ShortenFor(CommonCandidate(p, paths), path)
    decreases |p|
  {
    var all := paths + [path];
    assert forall k :: 0 <= k < |paths| ==> all[k] == paths[k];
    assert all[|paths|] == path;
    if !HasSeparator(p) {
    } else if PrefixOfAll(p, all) {
      assert PrefixOfAll(p, paths);
    } else if PrefixOfAll(p, paths) {
      var q := DropLastSegment(p);
      CommonCandidateSnoc(q, paths, path);
      assert PrefixOfAll(q, paths);
      assert !(p <= path);
    } else {
      assert !PrefixOfAll(p, all);
      CommonCandidateSnoc(DropLastSegment(p), paths, path);
    }
  }

  /** The candidate is a leading part of the path the walk started from. */
  lemma {:induction false} CommonCandidatePrefix(p: string, paths: seq<string>)
    ensures CommonCandidate(p, paths) <= p
    decreases |p|
  {
    if !PrefixOfAll(p, paths) && HasSeparator(p) {
      CommonCandidatePrefix(DropLastSegment(p), paths);
    }
  }

  /** A candidate that still holds a separator is a prefix of every path. */
  lemma {:induction false} CommonCandidateCommon(p: string, paths: seq<string>)
    ensures HasSeparator(CommonCandidate(p, paths)) ==> PrefixOfAll(CommonCandidate(p, paths), paths)
    decreases |p|
  {
    if !PrefixOfAll(p, paths) && HasSeparator(p) {
      CommonCandidateCommon(DropLastSegment(p), paths);
    }
  }

  /** `q` is one of the candidates met walking down from `p`. */
  ghost predicate OnWalk(q: string, p: string)
    decreases |p|
  {
    q == p || (HasSeparator(p) && OnWalk(q, DropLastSegment(p)))
  }

  /**
   * The walk stops at the first candidate that every path starts with: no
   * longer candidate on it is a prefix of every path.
   */
  lemma {:induction false} CommonCandidateLongest(p: string, paths: seq<string>, q: string)
    requires OnWalk(q, p) && |q| > |CommonCandidate(p, paths)|
    ensures !PrefixOfAll(q, paths)
    decreases |p|
  {
    if q != p {
      CommonCandidateLongest(DropLastSegment(p), paths, q);
    }
  }

  /** The result starts the first path. */
  lemma CommonOutputPathPrefixOfFirst(paths: seq<string>)
    requires |paths| > 0
    ensures CommonOutputPath(paths) <= paths[0]
  {
    CommonCandidatePrefix(paths[0], paths);
  }

  /**
   * For every path, the result starts it, or the result holds no separator,
   * or it is the root marker `/` substituted for an empty result.
   */
  lemma CommonOutputPathPerPath(paths: seq<string>, k: nat)
    requires k < |paths|
    ensures var r := CommonOutputPath(paths);
      r <= paths[k] || !HasSeparator(r) || (r == "/" && CommonCandidate(paths[0], paths) == "")
  {
    CommonCandidateCommon(paths[0], paths);
  }

  /** When every path is absolute, the result starts every path. */
  lemma CommonOutputPathAbsolute(paths: seq<string>)
    requires |paths| > 0
    requires forall k :: 0 <= k < |paths| ==> |paths[k]| > 0 && paths[k][0] == '/'
    ensures PrefixOfAll(CommonOutputPath(paths), paths)
  {
    var c := CommonCandidate(paths[0], paths);
    CommonCandidatePrefix(paths[0], paths);
    CommonCandidateCommon(paths[0], paths);
    if !HasSeparator(c) && c != "" {
      assert c[0] == paths[0][0];
      assert IsSeparator(c[0]);
      assert false;
    }
  }

  /** A single output path comes back unchanged. */
  lemma CommonOutputPathSingle(p: string)
    ensures CommonOutputPath([p]) == p
  {
    assert PrefixOfAll(p, [p]);
  }
}
