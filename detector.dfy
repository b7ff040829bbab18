/**
 * The undocumented-public-method detector of scripts/blame.py: a line-by-line
 * recogniser with one flag, `has_comment`, that is set by a line reading
 * exactly the comment end marker once stripped and cleared after every other line. A line is
 * reported when the flag is clear and its whitespace tokens start with
 * `public`, include `function` and contain no token starting with `__`.
 *
 * The file is given as the sequence of its lines, each with the line break
 * that iterating over a Python file keeps; a finding pairs the 0-based index
 * that `enumerate` produces with that raw, unstripped line.
 */
module Detector {
  import opened PyText

  /** `COMMENT_END`: the line that closes a documentation comment. */
  const CommentEnd := "*/"

  datatype Finding = Finding(index: nat, line: string)

  /** `line.strip().split()`. */
  function Tokens(line: string): seq<string>
  {
    Split(Strip(line))
  }

  /** The branch `stripped == COMMENT_END`. */
  predicate ClosesComment(line: string) { Strip(line) == CommentEnd }

  /** The three token tests of a reported line: the first token is `public`,
      some token is `function`, and no token starts with `__`. */
  predicate DeclaresPublicFunction(line: string) {
    var tokens := Tokens(line);
    |tokens| > 0 && tokens[0] == "public" && "function" in tokens &&
    forall t :: t in tokens ==> !StartsWith(t, "__")
  }

  /** Whether the line before line `i` closes a comment, which is exactly when
      `has_comment` is set as line `i` is read. */
  predicate Documented(lines: seq<string>, i: nat)
    requires i < |lines|
  {
    i > 0 && ClosesComment(lines[i - 1])
  }

  /** Whether line `i` is yielded: it is not itself a comment close, it is not
      documented, and it declares a public function. */
  predicate Reported(lines: seq<string>, i: nat)
    requires i < |lines|
  {
    !ClosesComment(lines[i]) && !Documented(lines, i) && DeclaresPublicFunction(lines[i])
  }

  /** What the generator yields over the first `n` lines, in order. */
  function FindingsIn(lines: seq<string>, n: nat): seq<Finding>
    requires n <= |lines|
  {
    if n == 0 then []
    else FindingsIn(lines, n - 1) + (if Reported(lines, n - 1) then [Finding(n - 1, lines[n - 1])] else [])
  }

  /** What the generator yields over the whole file. */
  function Findings(lines: seq<string>): seq<Finding>
  {
    FindingsIn(lines, |lines|)
  }

  /** `gen_undocumented_public_methods`: one pass over the lines, carrying
      `has_comment` from each line to the next and collecting what it yields. */
  method GenUndocumentedPublicMethods(lines: seq<string>) returns (found: seq<Finding>)
    ensures found == Findings(lines)
  {
    var hasComment := false;
    found := [];
    for linenum := 0 to |lines|
      invariant hasComment == (linenum > 0 && ClosesComment(lines[linenum - 1]))
      invariant found == FindingsIn(lines, linenum)
    {
      var line := lines[linenum];
      var stripped := Strip(line);
      if stripped == CommentEnd {
        hasComment := true;
      } else {
        if !hasComment {
          var tokens := Split(stripped);
          if |tokens| > 0 && tokens[0] == "public" {
            if "function" in tokens {
              if !(exists t :: t in tokens && StartsWith(t, "__")) {
                found := found + [Finding(linenum, line)];
              }
            }
          }
        }
        hasComment := false;
      }
    }
  }

  /** The findings among the first `n` lines are exactly the reported lines
      below `n`, each paired with its own raw line. */
  lemma {:induction false} FindingsInExactly(lines: seq<string>, n: nat, f: Finding)
    requires n <= |lines|
    ensures f in FindingsIn(lines, n) <==>
      f.index < n && f.line == lines[f.index] && Reported(lines, f.index)
  {
    if n > 0 {
      FindingsInExactly(lines, n - 1, f);
    }
  }

  /** A finding is yielded exactly for each reported line, with that line's
      0-based index and its raw text. */
  lemma FindingsExactly(lines: seq<string>, f: Finding)
    ensures f in Findings(lines) <==>
      f.index < |lines| && f.line == lines[f.index] && Reported(lines, f.index)
  {
    FindingsInExactly(lines, |lines|, f);
  }

  lemma {:induction false} FindingsInIncreasing(lines: seq<string>, n: nat)
    requires n <= |lines|
    ensures forall k :: 0 <= k < |FindingsIn(lines, n)| ==> FindingsIn(lines, n)[k].index < n
    ensures forall j, k :: 0 <= j < k < |FindingsIn(lines, n)| ==>
      FindingsIn(lines, n)[j].index < FindingsIn(lines, n)[k].index
  {
    if n > 0 {
      FindingsInIncreasing(lines, n - 1);
      var prev := FindingsIn(lines, n - 1);
      var last := if Reported(lines, n - 1) then [Finding(n - 1, lines[n - 1])] else [];
      var fs := FindingsIn(lines, n);
      assert fs == prev + last;
      forall k | 0 <= k < |fs| ensures fs[k].index < n {
        if k < |prev| {
          assert fs[k] == prev[k];
        } else {
          assert fs[k] == last[k - |prev|];
        }
      }
      forall j, k | 0 <= j < k < |fs| ensures fs[j].index < fs[k].index {
        assert fs[j] == prev[j];
        if k < |prev| {
          assert fs[k] == prev[k];
        } else {
          assert fs[k] == last[k - |prev|];
        }
      }
    }
  }

  /** Findings come out in strictly increasing line order, each index below
      the number of lines, so no line is reported twice. */
  lemma FindingsIncreasing(lines: seq<string>)
    ensures |Findings(lines)| <= |lines|
    ensures forall k :: 0 <= k < |Findings(lines)| ==> Findings(lines)[k].index < |lines|
    ensures forall j, k :: 0 <= j < k < |Findings(lines)| ==>
      Findings(lines)[j].index < Findings(lines)[k].index
  {
    FindingsInIncreasing(lines, |lines|);
    assert Findings(lines) == FindingsIn(lines, |lines|);
    IncreasingBound(Findings(lines), |lines|);
  }

  /** Strictly increasing indices below `n` number at most `n`. */
  lemma {:induction false} IncreasingBound(fs: seq<Finding>, n: nat)
    requires forall k :: 0 <= k < |fs| ==> fs[k].index < n
    requires forall j, k :: 0 <= j < k < |fs| ==> fs[j].index < fs[k].index
    ensures |fs| <= n
  {
    if fs != [] {
      var last := fs[|fs| - 1];
      var init := fs[..|fs| - 1];
      assert forall k :: 0 <= k < |init| ==> init[k].index < last.index by {
        forall k | 0 <= k < |init| ensures init[k].index < last.index {
          assert init[k] == fs[k];
        }
      }
      IncreasingBound(init, last.index);
    }
  }

  /** Every yielded line's tokens start with `public`, include `function`, and
      none of them starts with `__`. */
  lemma FindingsDeclarePublicFunctions(lines: seq<string>, f: Finding)
    requires f in Findings(lines)
    ensures var tokens := Tokens(f.line);
      |tokens| > 0 && tokens[0] == "public" && "function" in tokens &&
      forall t :: t in tokens ==> !StartsWith(t, "__")
  {
    FindingsExactly(lines, f);
  }

  /** A comment close is a single token, the comment end marker. */
  lemma CommentEndTokens(line: string)
    requires ClosesComment(line)
    ensures Tokens(line) == [CommentEnd]
  {
    assert Join([CommentEnd], ' ') + [] == CommentEnd;
    SplitJoin([CommentEnd], []);
  }

  /** A line that declares a public function never closes a comment, so the
      detector's first branch never hides a declaration on the line itself. */
  lemma DeclarationIsNotCommentEnd(line: string)
    requires DeclaresPublicFunction(line)
    ensures !ClosesComment(line)
  {
    if ClosesComment(line) {
      CommentEndTokens(line);
    }
  }

  /** A comment close is never yielded, and neither is the line right after it. */
  lemma CommentEndHidesNextLine(lines: seq<string>, i: nat, f: Finding)
    requires i < |lines| && ClosesComment(lines[i])
    requires f in Findings(lines)
    ensures f.index != i && f.index != i + 1
  {
    FindingsExactly(lines, f);
  }

  /** A line that declares a public function is yielded exactly when the line
      before it does not close a comment: the flag outlives one line only. */
  lemma ReportedExactlyWhenUndocumented(lines: seq<string>, i: nat)
    requires i < |lines| && DeclaresPublicFunction(lines[i])
    ensures Finding(i, lines[i]) in Findings(lines) <==> !Documented(lines, i)
  {
    DeclarationIsNotCommentEnd(lines[i]);
    FindingsExactly(lines, Finding(i, lines[i]));
  }

  /** Two lines after a comment close the flag is clear again: a declaration
      there is yielded unless the line between also closes a comment. */
  lemma CommentEndHidesOnlyOneLine(lines: seq<string>, i: nat)
    requires i + 2 < |lines| && ClosesComment(lines[i])
    requires !ClosesComment(lines[i + 1]) && DeclaresPublicFunction(lines[i + 2])
    ensures Finding(i + 2, lines[i + 2]) in Findings(lines)
  {
    ReportedExactlyWhenUndocumented(lines, i + 2);
  }
}
