/**
 * How a finding of the detector travels to `git blame` in scripts/blame.py:
 * `fileworker` queues the pair of file name and index the detector yields,
 * and `blameworker` passes that index to `get_blame` as the line number of
 * a `-L "<start>,+1"` range. The detector's index counts from 0 while git
 * counts lines from 1, so as written git is asked about the line before the
 * finding. Both the code as written and the corrected request are modelled;
 * the pipeline uses the corrected one.
 */
module Pipeline {
  import opened Wrappers
  import opened Detector
  import opened GitBlame

  /** The 0-based index of the line a `git blame` argument list asks about:
      one less than the start of its `-L` range. */
  function BlamedIndex(args: seq<string>): Option<int>
  {
    if |args| != 7 then None
    else match RangeStart(args[6])
      case Some(start) => Some(start - 1)
      case None => None
  }

  /** As written: git is asked about the line just before the finding, and
      for a finding on the first line about a line 0 that does not exist. */
  lemma BlameAsWritten(filename: string, f: Finding)
    ensures BlamedIndex(BlameArgs(filename, f.index)) == Some(f.index - 1)
    ensures f.index == 0 ==> RangeStart(BlameArgs(filename, f.index)[6]) == Some(0)
  {
    BlameRangeRoundTrip(filename, f.index, ".");
  }

  /** The corrected request: the finding's index plus one, the line number
      git counts from 1. Only the range differs from the request as written. */
  function BlameArgsForFinding(filename: string, f: Finding): (args: seq<string>)
    ensures |args| == 7 && args[..6] == BlameArgs(filename, f.index)[..6]
  {
    BlameArgs(filename, f.index + 1)
  }

  /** The corrected request asks git about exactly the line the finding is
      on, for every finding including one on the first line. */
  lemma BlameForFindingExact(filename: string, f: Finding)
    ensures BlamedIndex(BlameArgsForFinding(filename, f)) == Some(f.index as int)
    ensures RangeStart(BlameArgsForFinding(filename, f)[6]) == Some(f.index + 1)
  {
    BlameRangeRoundTrip(filename, f.index + 1, ".");
  }

  /** `fileworker` followed by `blameworker` for one file, corrected: one
      argument list per finding, in the order the detector yields them. */
  function BlameRequests(filename: string, lines: seq<string>): (reqs: seq<seq<string>>)
    ensures |reqs| == |Findings(lines)|
  {
    var fs := Findings(lines);
    seq(|fs|, k requires 0 <= k < |fs| => BlameArgsForFinding(filename, fs[k]))
  }

  /** Each request asks about a line the detector reports, and the requests
      ask about strictly increasing lines. */
  lemma BlameRequestsReported(filename: string, lines: seq<string>, k: nat)
    requires k < |BlameRequests(filename, lines)|
    ensures BlamedIndex(BlameRequests(filename, lines)[k]).Some?
    ensures var i := BlamedIndex(BlameRequests(filename, lines)[k]).value;
      0 <= i < |lines| && Reported(lines, i)
    ensures forall j :: 0 <= j < k ==>
      BlamedIndex(BlameRequests(filename, lines)[j]).Some? &&
      BlamedIndex(BlameRequests(filename, lines)[j]).value < BlamedIndex(BlameRequests(filename, lines)[k]).value
  {
    var fs := Findings(lines);
    FindingsIncreasing(lines);
    assert fs[k] in fs;
    FindingsExactly(lines, fs[k]);
    BlameForFindingExact(filename, fs[k]);
    forall j | 0 <= j < k
      ensures BlamedIndex(BlameRequests(filename, lines)[j]).Some? &&
        BlamedIndex(BlameRequests(filename, lines)[j]).value < BlamedIndex(BlameRequests(filename, lines)[k]).value
    {
      BlameForFindingExact(filename, fs[j]);
    }
  }
}
