/** The parts of Node's POSIX `path` module that the combiner relies on:
    `dirname`, `basename` (with and without a suffix), the backslash folding
    that precedes them, and the join-and-normalize step of `path.resolve`. */
module PosixPath {
  import opened Strings

  /** `s.replace(/\\/g, '/')`: every backslash becomes a forward slash. */
  function BackslashesToSlashes(s: string): (r: string)
    ensures |r| == |s|
    ensures forall i :: 0 <= i < |s| ==> r[i] == (if s[i] == '\\' then '/' else s[i])
    ensures forall i :: 0 <= i < |r| ==> r[i] != '\\'
  {
    seq(|s|, i requires 0 <= i < |s| => if s[i] == '\\' then '/' else s[i])
  }

  /** The index of the last `/` in `s`, or -1 when there is none. */
  function LastSlash(s: string): (r: int)
    ensures -1 <= r < |s|
    ensures r >= 0 ==> s[r] == '/'
    ensures forall j :: r < j < |s| ==> s[j] != '/'
    decreases |s|
  {
    if s == [] then -1
    else if s[|s| - 1] == '/' then |s| - 1
    else LastSlash(s[..|s| - 1])
  }

  /** `path.posix.dirname(p)` for a path without trailing or doubled slashes. */
  function Dirname(p: string): string {
    var i := LastSlash(p);
    if i < 0 then "."
    else if i == 0 then "/"
    else p[..i]
  }

  /** The last path segment: everything after the last `/`. */
  function LastSegment(p: string): (r: string)
    ensures forall j :: 0 <= j < |r| ==> r[j] != '/'
    ensures |r| <= |p|
  {
    p[LastSlash(p) + 1..]
  }

  /** `path.basename(p, suffix)`: the last segment, with `suffix` removed when
      the segment ends with it and is longer than it; the whole of `p` being
      the suffix gives the empty string. */
  function Basename(p: string, suffix: string): (r: string)
    ensures forall j :: 0 <= j < |r| ==> r[j] != '/'
  {
    if suffix != "" && p == suffix then ""
    else
      var c := LastSegment(p);
      if suffix != "" && |c| > |suffix| && EndsWith(c, suffix) then c[..|c| - |suffix|]
      else c
  }

  /** A path with no `/` is its own last segment. */
  lemma LastSegmentOfPlainName(p: string)
    requires forall j :: 0 <= j < |p| ==> p[j] != '/'
    ensures LastSegment(p) == p
  {
    assert LastSlash(p) == -1;
  }

  // ----- joining and normalizing -----

  /** `s.split('/')`. */
  function Split(s: string): (r: seq<string>)
    ensures |r| > 0
    decreases |s|
  {
    var i := LastSlash(s);
    if i < 0 then [s]
    else Split(s[..i]) + [s[i + 1..]]
  }

  /** `segs.join('/')`. */
  function Join(segs: seq<string>): string
  {
    if segs == [] then ""
    else if |segs| == 1 then segs[0]
    else Join(segs[..|segs| - 1]) + "/" + segs[|segs| - 1]
  }

  /** A normalized segment list: no empty or `.` segments, and `..` only in a
      leading run (a `..` after a real name would have cancelled it). */
  predicate Normalized(segs: seq<string>) {
    forall i :: 0 <= i < |segs| ==>
      segs[i] != "" && segs[i] != "." &&
      (segs[i] == ".." ==> forall j :: 0 <= j < i ==> segs[j] == "..")
  }

  /** One segment of `path.posix.normalize`: `.` and empty segments vanish,
      `..` pops the previous name or, with none left, is kept. */
  function NormalizeStep(acc: seq<string>, seg: string): seq<string> {
    if seg == "" || seg == "." then acc
    else if seg == ".." then
      (if |acc| > 0 && acc[|acc| - 1] != ".." then acc[..|acc| - 1] else acc + [".."])
    else acc + [seg]
  }

  function NormalizeSegments(acc: seq<string>, segs: seq<string>): seq<string>
    decreases |segs|
  {
    if segs == [] then acc
    else NormalizeSegments(NormalizeStep(acc, segs[0]), segs[1..])
  }

  /** `path.posix.resolve(dir, ref)` with the working directory abstracted
      away: `dir` and `ref` joined and normalized, leading `..` kept. */
  function JoinNormalize(dir: string, ref: string): string {
    Join(NormalizeSegments([], Split(dir + "/" + ref)))
  }

  lemma NormalizeStepKeepsNormalized(acc: seq<string>, seg: string)
    requires Normalized(acc)
    ensures Normalized(NormalizeStep(acc, seg))
  {
    var r := NormalizeStep(acc, seg);
    if seg == ".." && !(|acc| > 0 && acc[|acc| - 1] != "..") {
      assert forall j :: 0 <= j < |acc| ==> acc[j] == ".." by {
        forall j | 0 <= j < |acc| ensures acc[j] == ".." {
          assert acc[|acc| - 1] == "..";
        }
      }
    }
  }

  /** Normalizing yields a normalized list: the resolved path never holds `.`,
      empty segments, or a `..` below a real directory name. */
  lemma {:induction false} NormalizeSegmentsNormalized(acc: seq<string>, segs: seq<string>)
    requires Normalized(acc)
    ensures Normalized(NormalizeSegments(acc, segs))
    decreases |segs|
  {
    if segs != [] {
      NormalizeStepKeepsNormalized(acc, segs[0]);
      NormalizeSegmentsNormalized(NormalizeStep(acc, segs[0]), segs[1..]);
    }
  }
}
