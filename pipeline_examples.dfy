/**
 * The requests for scripts/test.php, as written and corrected: the file
 * whose one finding is worked out in DetectorExamples.
 */
module PipelineExamples {
  import opened Wrappers
  import opened Detector
  import opened GitBlame
  import opened DetectorExamples
  import opened Pipeline

  /** On scripts/test.php the only finding is the declaration of `add` at
      index 13, but as written git is asked about index 12, the blank line
      above it. */
  lemma TestPhpBlamesBlankLine(filename: string, f: Finding)
    requires f in Findings(Render(TestPhpText))
    ensures f.index == 13
    ensures BlamedIndex(BlameArgs(filename, f.index)) == Some(12) && TestPhpText[12].1 == []
  {
    TestPhpFindingIndex(f);
    BlameAsWritten(filename, f);
  }

  /** On scripts/test.php the corrected request asks git about the
      declaration of `add` itself. */
  lemma TestPhpBlamesAdd(filename: string)
    ensures BlameRequests(filename, Render(TestPhpText)) == [BlameArgs(filename, 14)]
  {
    TestPhpFindings();
  }
}
