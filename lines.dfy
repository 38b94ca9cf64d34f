/**
 * Text helpers the chunker relies on: JavaScript's `split("\n")`, its
 * inverse `join("\n")`, the text obtained by writing every line followed
 * by a newline, and `trim()` over JavaScript's fixed whitespace set.
 * Characters are Unicode scalar values.
 */
module Lines {

  /** `s.split("\n")`: the pieces between newlines, always at least one. */
  function Split(s: string): (r: seq<string>)
    ensures |r| >= 1
    ensures forall k :: 0 <= k < |r| ==> '\n' !in r[k]
  {
    if s == [] then [""]
    else if s[0] == '\n' then [""] + Split(s[1..])
    else
      var t := Split(s[1..]);
      [[s[0]] + t[0]] + t[1..]
  }

  /** `ls.join("\n")` */
  function Join(ls: seq<string>): string
    requires |ls| >= 1
  {
    if |ls| == 1 then ls[0] else ls[0] + "\n" + Join(ls[1..])
  }

  /** The text `ls[0] + "\n" + ls[1] + "\n" + ...`, every line followed by a newline. */
  function LinesText(ls: seq<string>): string
  {
    if ls == [] then "" else LinesText(ls[..|ls| - 1]) + ls[|ls| - 1] + "\n"
  }

  /**
   * The text of lines `a..b-1` of `lines`, each followed by a newline: the
   * same text as `LinesText(lines[a..b])` (see `LinesBetweenIsText`),
   * indexed into `lines` rather than sliced, which keeps the chunker's
   * loop invariants cheap to verify.
   */
  function LinesBetween(lines: seq<string>, a: int, b: int): string
    requires 0 <= a && b <= |lines|
    decreases b - a
  {
    if b <= a then "" else LinesBetween(lines, a, b - 1) + lines[b - 1] + "\n"
  }

  /** `LinesBetween` is the text of the slice `lines[a..b]`. */
  lemma {:induction false} LinesBetweenIsText(lines: seq<string>, a: int, b: int)
    requires 0 <= a <= b <= |lines|
    ensures LinesBetween(lines, a, b) == LinesText(lines[a..b])
    decreases b - a
  {
    if a < b {
      LinesBetweenIsText(lines, a, b - 1);
      assert lines[a..b][..b - 1 - a] == lines[a..b - 1];
    }
  }

  /** The text of lines `a..c-1` is that of `a..b-1` followed by that of `b..c-1`. */
  lemma {:induction false} LinesBetweenSplit(lines: seq<string>, a: int, b: int, c: int)
    requires 0 <= a <= b <= c <= |lines|
    ensures LinesBetween(lines, a, c) == LinesBetween(lines, a, b) + LinesBetween(lines, b, c)
    decreases c - b
  {
    if b < c {
      LinesBetweenSplit(lines, a, b, c - 1);
    }
  }

  /** A range of lines has empty text exactly when it holds no line. */
  lemma LinesBetweenEmpty(lines: seq<string>, a: int, b: int)
    requires 0 <= a && b <= |lines|
    ensures (LinesBetween(lines, a, b) == "") <==> (b <= a)
  {
    if a < b {
      assert |LinesBetween(lines, a, b)| >= 1;
    }
  }

  /** Joining the pieces of a split gives back the original text. */
  lemma {:induction false} JoinSplit(s: string)
    ensures Join(Split(s)) == s
  {
    if s == [] {
    } else if s[0] == '\n' {
      var t := Split(s[1..]);
      JoinSplit(s[1..]);
      assert ([""] + t)[1..] == t;
    } else {
      var t := Split(s[1..]);
      JoinSplit(s[1..]);
      var r := [[s[0]] + t[0]] + t[1..];
      if |t| == 1 {
        assert s == [s[0]] + s[1..];
      } else {
        assert r[1..] == t[1..];
        assert Join(t) == t[0] + "\n" + Join(t[1..]);
        assert s == [s[0]] + s[1..];
      }
    }
  }

  /** A text without a newline splits into itself. */
  lemma {:induction false} SplitNoNewline(x: string)
    requires '\n' !in x
    ensures Split(x) == [x]
  {
    if x != [] {
      assert '\n' !in x[1..] by {
        forall k | 0 <= k < |x[1..]| ensures x[1..][k] != '\n' {
          assert x[1..][k] == x[k + 1];
        }
      }
      SplitNoNewline(x[1..]);
      assert [x[0]] + x[1..] == x;
    }
  }

  /** Splitting stops at the first newline. */
  lemma {:induction false} SplitAtNewline(x: string, y: string)
    requires '\n' !in x
    ensures Split(x + "\n" + y) == [x] + Split(y)
  {
    if x == [] {
      assert x + "\n" + y == "\n" + y;
      assert ("\n" + y)[1..] == y;
    } else {
      var s := x + "\n" + y;
      assert s[0] == x[0];
      assert s[1..] == x[1..] + "\n" + y;
      assert '\n' !in x[1..] by {
        forall k | 0 <= k < |x[1..]| ensures x[1..][k] != '\n' {
          assert x[1..][k] == x[k + 1];
        }
      }
      SplitAtNewline(x[1..], y);
      assert [x[0]] + x[1..] == x;
    }
  }

  /** Splitting a join of newline-free pieces gives back the pieces. */
  lemma {:induction false} SplitJoin(ls: seq<string>)
    requires |ls| >= 1
    requires forall k :: 0 <= k < |ls| ==> '\n' !in ls[k]
    ensures Split(Join(ls)) == ls
  {
    if |ls| == 1 {
      SplitNoNewline(ls[0]);
    } else {
      SplitAtNewline(ls[0], Join(ls[1..]));
      SplitJoin(ls[1..]);
      assert [ls[0]] + ls[1..] == ls;
    }
  }

  /** The newline-terminated text of two runs of lines is the text of each. */
  lemma {:induction false} LinesTextAppend(a: seq<string>, b: seq<string>)
    ensures LinesText(a + b) == LinesText(a) + LinesText(b)
    decreases |b|
  {
    if b == [] {
      assert a + b == a;
    } else {
      var b' := b[..|b| - 1];
      assert (a + b)[..|a + b| - 1] == a + b';
      LinesTextAppend(a, b');
    }
  }

  /** Writing every line followed by a newline is the join plus one newline. */
  lemma {:induction false} LinesTextIsJoin(ls: seq<string>)
    requires |ls| >= 1
    ensures LinesText(ls) == Join(ls) + "\n"
  {
    if |ls| == 1 {
      assert ls[..0] == [];
    } else {
      LinesTextIsJoin(ls[1..]);
      LinesTextAppend([ls[0]], ls[1..]);
      assert [ls[0]] + ls[1..] == ls;
      assert [ls[0]][..0] == [];
      assert LinesText([ls[0]]) == ls[0] + "\n";
      calc {
        LinesText(ls);
        LinesText([ls[0]]) + LinesText(ls[1..]);
        ls[0] + "\n" + (Join(ls[1..]) + "\n");
        (ls[0] + "\n" + Join(ls[1..])) + "\n";
      }
    }
  }

  /** The lines of a split, each written with its newline, are the text plus one newline. */
  lemma SplitLinesText(s: string)
    ensures LinesText(Split(s)) == s + "\n"
    ensures LinesBetween(Split(s), 0, |Split(s)|) == s + "\n"
  {
    LinesTextIsJoin(Split(s));
    JoinSplit(s);
    LinesBetweenIsText(Split(s), 0, |Split(s)|);
    assert Split(s)[0..|Split(s)|] == Split(s);
  }

  /** The characters `String.prototype.trim` removes: WhiteSpace and LineTerminator. */
  predicate IsWhitespace(c: char)
  {
    c == '\t' || c == '\n' || c == '\U{000B}' || c == '\U{000C}' || c == '\r' || c == ' '
    || c == '\U{00A0}' || c == '\U{1680}' || ('\U{2000}' <= c <= '\U{200A}')
    || c == '\U{2028}' || c == '\U{2029}' || c == '\U{202F}' || c == '\U{205F}'
    || c == '\U{3000}' || c == '\U{FEFF}'
  }

  predicate IsBlank(s: string)
  {
    forall k :: 0 <= k < |s| ==> IsWhitespace(s[k])
  }

  /** A concatenation is all whitespace exactly when both parts are. */
  lemma BlankConcat(a: string, b: string)
    ensures IsBlank(a + b) <==> IsBlank(a) && IsBlank(b)
  {
    if IsBlank(a + b) {
      forall k | 0 <= k < |a| ensures IsWhitespace(a[k]) {
        assert a[k] == (a + b)[k];
      }
      forall k | 0 <= k < |b| ensures IsWhitespace(b[k]) {
        assert b[k] == (a + b)[|a| + k];
      }
    }
  }

  /** Drops leading whitespace. */
  function TrimStart(s: string): string
  {
    if s != [] && IsWhitespace(s[0]) then TrimStart(s[1..]) else s
  }

  /** Drops trailing whitespace. */
  function TrimEnd(s: string): string
  {
    if s != [] && IsWhitespace(s[|s| - 1]) then TrimEnd(s[..|s| - 1]) else s
  }

  /** `s.trim()` */
  function Trim(s: string): string
  {
    TrimEnd(TrimStart(s))
  }

  /** `TrimStart` removes a whitespace prefix and stops at the first visible character. */
  lemma {:induction false} TrimStartIsSuffix(s: string)
    ensures var r := TrimStart(s);
            && |r| <= |s| && r == s[|s| - |r|..]
            && (forall k :: 0 <= k < |s| - |r| ==> IsWhitespace(s[k]))
            && (r == [] || !IsWhitespace(r[0]))
  {
    if s != [] && IsWhitespace(s[0]) {
      var r := TrimStart(s[1..]);
      TrimStartIsSuffix(s[1..]);
      assert s[1..][|s| - 1 - |r|..] == s[|s| - |r|..];
      forall k | 0 < k < |s| - |r|
        ensures IsWhitespace(s[k])
      {
        assert s[k] == s[1..][k - 1];
      }
    }
  }

  /** `TrimEnd` removes a whitespace suffix and stops at the last visible character. */
  lemma {:induction false} TrimEndIsPrefix(s: string)
    ensures var r := TrimEnd(s);
            && |r| <= |s| && r == s[..|r|]
            && (forall k :: |r| <= k < |s| ==> IsWhitespace(s[k]))
            && (r == [] || !IsWhitespace(r[|r| - 1]))
  {
    if s != [] && IsWhitespace(s[|s| - 1]) {
      var r := TrimEnd(s[..|s| - 1]);
      TrimEndIsPrefix(s[..|s| - 1]);
      assert s[..|s| - 1][..|r|] == s[..|r|];
      forall k | |r| <= k < |s| - 1
        ensures IsWhitespace(s[k])
      {
        assert s[k] == s[..|s| - 1][k];
      }
    }
  }

  /** `s.trim()` is falsy (empty) exactly when every character of `s` is whitespace. */
  lemma TrimEmptyIffBlank(s: string)
    ensures Trim(s) == "" <==> IsBlank(s)
  {
    var t := TrimStart(s);
    TrimStartIsSuffix(s);
    TrimEndIsPrefix(t);
    if Trim(s) == "" {
      assert |t| == 0;
    } else {
      assert !IsWhitespace(t[0]);
      assert t[0] == s[|s| - |t|];
    }
  }
}
