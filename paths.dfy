/**
 * The two path operations of Node's posix `path` module the worker relies
 * on: `path.extname`, and `path.join(dir, name)` for a directory path and
 * the name of one of its entries.
 */
module Paths {

  /** `p` without the run of `/` at its end. */
  function TrimTrailingSlashes(p: string): string
  {
    if p != [] && p[|p| - 1] == '/' then TrimTrailingSlashes(p[..|p| - 1]) else p
  }

  /** The part of `p` after its last `/` (all of `p` when it has none). */
  function LastSegment(p: string): string
  {
    if p == [] || p[|p| - 1] == '/' then [] else LastSegment(p[..|p| - 1]) + [p[|p| - 1]]
  }

  /** The index of the last `.` in `s`, or -1 when there is none. */
  function LastDot(s: string): (r: int)
    ensures -1 <= r < |s|
    ensures r >= 0 ==> s[r] == '.'
  {
    if s == [] then -1
    else if s[|s| - 1] == '.' then |s| - 1
    else LastDot(s[..|s| - 1])
  }

  /**
   * `path.extname(p)`: the last segment (trailing slashes ignored) from its
   * last `.` to its end. It is empty when the segment has no `.`, when its
   * last `.` is its first character, or when the segment is `..`.
   */
  function Extname(p: string): string
  {
    var seg := LastSegment(TrimTrailingSlashes(p));
    var d := LastDot(seg);
    if d <= 0 || seg == ".." then "" else seg[d..]
  }

  /**
   * `path.join(dir, name)` for a directory path and an entry name: the two
   * joined by one `/`. Normalisation of `.`, `..` and repeated slashes is
   * not modelled.
   */
  function JoinPath(dir: string, name: string): string
  {
    if dir == "" then name
    else if dir[|dir| - 1] == '/' then dir + name
    else dir + "/" + name
  }

  /** `LastDot` finds the last `.`, and there is none after it. */
  lemma {:induction false} LastDotIsLast(s: string)
    ensures forall k :: LastDot(s) < k < |s| ==> s[k] != '.'
  {
    if s != [] && s[|s| - 1] != '.' {
      LastDotIsLast(s[..|s| - 1]);
    }
  }

  /** A dot followed by a dot-free tail: the last dot is the one before the tail. */
  lemma {:induction false} LastDotBeforeTail(stem: string, x: string)
    requires '.' !in x
    ensures LastDot(stem + "." + x) == |stem|
    decreases |x|
  {
    var s := stem + "." + x;
    if x == [] {
      assert s == stem + ".";
    } else {
      assert s[..|s| - 1] == stem + "." + x[..|x| - 1];
      assert s[|s| - 1] == x[|x| - 1];
      LastDotBeforeTail(stem, x[..|x| - 1]);
    }
  }

  /** A text without a dot has no last dot. */
  lemma {:induction false} LastDotNone(s: string)
    requires '.' !in s
    ensures LastDot(s) == -1
  {
    if s != [] {
      assert s[|s| - 1] != '.';
      LastDotNone(s[..|s| - 1]);
    }
  }

  /** A slash-free text following nothing or a `/` is the last segment. */
  lemma {:induction false} LastSegmentAfterSlash(q: string, n: string)
    requires q == "" || q[|q| - 1] == '/'
    requires '/' !in n
    ensures LastSegment(q + n) == n
    decreases |n|
  {
    if n == [] {
      assert q + n == q;
    } else {
      assert (q + n)[..|q + n| - 1] == q + n[..|n| - 1];
      assert (q + n)[|q + n| - 1] == n[|n| - 1];
      LastSegmentAfterSlash(q, n[..|n| - 1]);
      assert n[..|n| - 1] + [n[|n| - 1]] == n;
    }
  }

  /** A slash-free text is its own last segment. */
  lemma SegmentOfName(n: string)
    requires '/' !in n
    ensures TrimTrailingSlashes(n) == n && LastSegment(n) == n
  {
    LastSegmentAfterSlash("", n);
    assert "" + n == n;
  }

  /**
   * What `Extname` returns: empty, or a suffix of the path that starts
   * with its only `.` and holds no `/`.
   */
  lemma ExtnameShape(p: string)
    ensures var e := Extname(p);
            e == "" || (e[0] == '.' && '.' !in e[1..] && '/' !in e)
  {
    var seg := LastSegment(TrimTrailingSlashes(p));
    LastDotIsLast(seg);
    SegmentHasNoSlash(TrimTrailingSlashes(p));
    var e := Extname(p);
    if e != "" {
      var d := LastDot(seg);
      assert e == seg[d..];
      forall k | 0 <= k < |e| - 1
        ensures e[1..][k] != '.'
      {
        assert e[1..][k] == seg[d + 1 + k];
      }
      forall k | 0 <= k < |e|
        ensures e[k] != '/'
      {
        assert e[k] == seg[d + k];
      }
    }
  }

  /** The last segment holds no `/`. */
  lemma {:induction false} SegmentHasNoSlash(p: string)
    ensures '/' !in LastSegment(p)
  {
    if p != [] && p[|p| - 1] != '/' {
      SegmentHasNoSlash(p[..|p| - 1]);
    }
  }

  /** A slash-free name without a dot has no extension. */
  lemma ExtnameNoDot(n: string)
    requires '/' !in n && '.' !in n
    ensures Extname(n) == ""
  {
    SegmentOfName(n);
    LastDotNone(n);
  }

  /** A name built from slash-free parts around a dot is slash-free. */
  lemma NoSlashAroundDot(stem: string, x: string)
    requires '/' !in stem && '/' !in x
    ensures '/' !in stem + "." + x
  {
    var n := stem + "." + x;
    forall k | 0 <= k < |n|
      ensures n[k] != '/'
    {
      if k < |stem| {
        assert n[k] == stem[k];
      } else if k > |stem| {
        assert n[k] == x[k - |stem| - 1];
      }
    }
  }

  /** `stem.x`, with a dot-free tail, is the name `..` exactly when the stem is `.` and the tail empty. */
  lemma DotDotName(stem: string, x: string)
    requires '.' !in x
    ensures (stem + "." + x == "..") <==> (stem == "." && x == "")
  {
    var n := stem + "." + x;
    LastDotBeforeTail(stem, x);
    if n == ".." {
      assert LastDot("..") == 1;
      assert |stem| == 1 && |x| == 0;
      assert |stem| == 1 && stem[0] == n[0];
      assert stem == ".";
    }
  }

  /**
   * A slash-free name `stem.x` whose tail `x` has no dot: its extension is
   * `.x`, unless the stem is empty (a leading dot, as in `.env`) or the
   * name is `..`.
   */
  lemma ExtnameOfName(stem: string, x: string)
    requires '/' !in stem && '/' !in x && '.' !in x
    ensures Extname(stem + "." + x)
         == if stem == "" || (stem == "." && x == "") then "" else "." + x
  {
    var n := stem + "." + x;
    NoSlashAroundDot(stem, x);
    SegmentOfName(n);
    LastDotBeforeTail(stem, x);
    DotDotName(stem, x);
    assert n[|stem|..] == "." + x;
  }

  /** Joining a directory and a slash-free name keeps the name's extension. */
  lemma ExtnameOfJoin(dir: string, name: string)
    requires name != "" && '/' !in name
    ensures Extname(JoinPath(dir, name)) == Extname(name)
  {
    var q := if dir == "" then "" else if dir[|dir| - 1] == '/' then dir else dir + "/";
    assert JoinPath(dir, name) == q + name;
    var p := q + name;
    assert p[|p| - 1] == name[|name| - 1];
    assert TrimTrailingSlashes(p) == p;
    LastSegmentAfterSlash(q, name);
    SegmentOfName(name);
  }
}
