/**
 * The two pieces of scripts/blame.py that talk to `git blame`: the argument
 * list `get_blame` hands to the subprocess, and `get_email_from_blame`, which
 * picks the author's address out of the porcelain output that comes back.
 * Running the subprocess itself is not part of this model: the output is a
 * parameter.
 */
module GitBlame {
  import opened Wrappers
  import opened PyText

  /** The fixed text `EXTRACT_EMAIL_PATTERN` requires before its capture. */
  const AuthorMailPrefix := "author-mail <"

  /** The exception `get_email_from_blame` raises, with its message. */
  datatype ValueError = ValueError(message: string)

  const CouldNotGetEmail := "Could not get email"

  /** The line with one trailing line break removed: `$` in a Python pattern
      also matches just before a line break that ends the string. */
  function BeforeEnd(line: string): (r: string)
    ensures r == line || r + "\n" == line
  {
    if line != [] && line[|line| - 1] == '\n' then line[..|line| - 1] else line
  }

  /** `EXTRACT_EMAIL_PATTERN.match(line)` and its group 1: the line is
      `author-mail <`, then one or more characters other than a line break,
      then `>` at the end of the line. The greedy `.+` takes everything up to
      the last `>`. */
  function MatchAuthorMail(line: string): (m: Option<string>)
    ensures m.Some? ==> m.value != [] && '\n' !in m.value
  {
    var body := BeforeEnd(line);
    if StartsWith(body, AuthorMailPrefix) && |body| > |AuthorMailPrefix| + 1 && body[|body| - 1] == '>' &&
       '\n' !in body[|AuthorMailPrefix|..|body| - 1]
    then
      assert body == AuthorMailPrefix + body[|AuthorMailPrefix|..|body| - 1] + ">";
      Some(body[|AuthorMailPrefix|..|body| - 1])
    else None
  }

  /** The pattern matches exactly the lines built around a non-empty address
      without line breaks, and captures that address. */
  lemma MatchAuthorMailExactly(line: string, e: string)
    ensures MatchAuthorMail(line) == Some(e) <==>
      e != [] && '\n' !in e && (line == AuthorMailPrefix + e + ">" || line == AuthorMailPrefix + e + ">\n")
  {
    if e != [] && '\n' !in e && (line == AuthorMailPrefix + e + ">" || line == AuthorMailPrefix + e + ">\n") {
      var body := AuthorMailPrefix + e + ">";
      assert BeforeEnd(line) == body by {
        if line == body + "\n" {
          assert line[..|line| - 1] == body;
        }
      }
      assert StartsWith(body, AuthorMailPrefix) by {
        assert body[..|AuthorMailPrefix|] == AuthorMailPrefix;
      }
      assert body[|AuthorMailPrefix|..|body| - 1] == e;
    }
  }

  /** The loop of `get_email_from_blame`: the capture of the first line that
      matches, or nothing when no line does. */
  function FirstAuthorMail(lines: seq<string>): (m: Option<string>)
    ensures m.Some? ==> m.value != [] && '\n' !in m.value
  {
    if lines == [] then None
    else match MatchAuthorMail(lines[0])
      case Some(e) => Some(e)
      case None => FirstAuthorMail(lines[1..])
  }

  /** The search finds the capture of line `i` when line `i` matches and no
      line before it does. */
  lemma {:induction false} FirstAuthorMailAt(lines: seq<string>, i: nat)
    requires i < |lines| && MatchAuthorMail(lines[i]).Some?
    requires forall j :: 0 <= j < i ==> MatchAuthorMail(lines[j]).None?
    ensures FirstAuthorMail(lines) == MatchAuthorMail(lines[i])
  {
    if i > 0 {
      assert MatchAuthorMail(lines[0]).None?;
      forall j | 0 <= j < i - 1 ensures MatchAuthorMail(lines[1..][j]).None? {
        assert lines[1..][j] == lines[j + 1];
      }
      FirstAuthorMailAt(lines[1..], i - 1);
    }
  }

  /** Whatever the search returns is the capture of some line before which no
      line matches. */
  lemma {:induction false} FirstAuthorMailFrom(lines: seq<string>) returns (i: nat)
    requires FirstAuthorMail(lines).Some?
    ensures i < |lines| && MatchAuthorMail(lines[i]) == FirstAuthorMail(lines)
    ensures forall j :: 0 <= j < i ==> MatchAuthorMail(lines[j]).None?
  {
    if MatchAuthorMail(lines[0]).Some? {
      i := 0;
    } else {
      var k := FirstAuthorMailFrom(lines[1..]);
      i := k + 1;
      forall j | 0 <= j < i ensures MatchAuthorMail(lines[j]).None? {
        if j > 0 {
          assert lines[j] == lines[1..][j - 1];
        }
      }
    }
  }

  /** No line is an `author-mail` line. */
  predicate NoAuthorMail(lines: seq<string>)
  {
    forall j :: 0 <= j < |lines| ==> MatchAuthorMail(lines[j]).None?
  }

  /** The search comes back empty exactly when no line matches. */
  lemma {:induction false} FirstAuthorMailNone(lines: seq<string>)
    ensures FirstAuthorMail(lines).None? <==> NoAuthorMail(lines)
  {
    if lines != [] {
      FirstAuthorMailNone(lines[1..]);
      if MatchAuthorMail(lines[0]).None? {
        forall j | 0 <= j < |lines| && MatchAuthorMail(lines[j]).Some?
          ensures FirstAuthorMail(lines[1..]).Some?
        {
          assert lines[j] == lines[1..][j - 1];
        }
      }
    }
  }

  /** `get_email_from_blame`: the address on the first `author-mail` line of
      the output split on line breaks, or the `ValueError` it raises. */
  function EmailFromBlame(blame: string): (r: Result<string, ValueError>)
    ensures r.Success? ==> r.value != [] && '\n' !in r.value
    ensures r.Failure? ==> r.error == ValueError(CouldNotGetEmail)
  {
    match FirstAuthorMail(SplitOn(blame, '\n'))
      case Some(e) => Success(e)
      case None => Failure(ValueError(CouldNotGetEmail))
  }

  /** The error is raised exactly when no line of the output matches. */
  lemma EmailFromBlameFails(blame: string)
    ensures EmailFromBlame(blame).Failure? <==> NoAuthorMail(SplitOn(blame, '\n'))
  {
    var lines := SplitOn(blame, '\n');
    FirstAuthorMailNone(lines);
    assert EmailFromBlame(blame).Failure? <==> FirstAuthorMail(lines).None?;
  }

  /** An empty output has no author line and raises the error. */
  lemma EmailFromEmptyBlame()
    ensures EmailFromBlame("") == Failure(ValueError(CouldNotGetEmail))
  {
    assert SplitOn("", '\n') == [""];
    assert MatchAuthorMail("") == None;
  }

  /** Output given line by line: the address comes from the first line that
      matches, whatever the lines after it hold. */
  lemma EmailFromBlameLines(lines: seq<string>, i: nat)
    requires forall k :: 0 <= k < |lines| ==> '\n' !in lines[k]
    requires i < |lines| && MatchAuthorMail(lines[i]).Some?
    requires forall j :: 0 <= j < i ==> MatchAuthorMail(lines[j]).None?
    ensures EmailFromBlame(Join(lines, '\n')) == Success(MatchAuthorMail(lines[i]).value)
  {
    SplitOnJoin(lines, '\n');
    FirstAuthorMailAt(lines, i);
  }

  /** The single line `author-mail <e>` yields `e` back, for any non-empty
      address without a line break. */
  lemma EmailRoundTrip(e: string)
    requires e != [] && '\n' !in e
    ensures EmailFromBlame(AuthorMailPrefix + e + ">") == Success(e)
  {
    var line := AuthorMailPrefix + e + ">";
    MatchAuthorMailExactly(line, e);
    assert '\n' !in line by {
      assert line == (AuthorMailPrefix + e) + ">";
      assert '\n' !in AuthorMailPrefix + e;
    }
    EmailFromBlameLines([line], 0);
    assert Join([line], '\n') == line;
  }

  /** The argument list of `get_blame`: porcelain output with full revision
      names for the one-line range starting at `lineNumber` of the file
      `os.path.join(localPath, filename)`; `localPath` defaults to ".". */
  function BlameArgs(filename: string, lineNumber: int, localPath: string := "."): (args: seq<string>)
    ensures |args| == 7
    ensures args[..4] == ["git", "blame", "-p", "-l"] && args[5] == "-L"
  {
    ["git", "blame", "-p", "-l", JoinPath(localPath, filename), "-L", FormatInt(lineNumber) + ",+1"]
  }

  /** The start line a `-L "<start>,+1"` range names, as `git blame` reads it:
      an optional minus sign and decimal digits before the comma, and a count
      of one after it. */
  function RangeStart(range: string): Option<int>
  {
    var parts := SplitOn(range, ',');
    if |parts| == 2 && parts[1] == "+1" && parts[0] != [] &&
       ((parts[0][0] == '-' && IsDigits(parts[0][1..])) || IsDigits(parts[0]))
    then Some(ParseInt(parts[0]))
    else None
  }

  /** The range argument names exactly the line number it was built from,
      with a count of one. */
  lemma BlameRangeRoundTrip(filename: string, lineNumber: int, localPath: string)
    ensures RangeStart(BlameArgs(filename, lineNumber, localPath)[6]) == Some(lineNumber)
  {
    var n := FormatInt(lineNumber);
    FormatIntRoundTrip(lineNumber);
    assert ',' !in n;
    assert ',' !in "+1";
    SplitOnJoin([n, "+1"], ',');
    assert Join([n, "+1"], ',') == n + ",+1";
  }

  /** The file argument names the file inside `localPath`: an absolute name
      is used as it is, and a relative one is joined to `localPath`. */
  lemma BlameArgsPath(filename: string, lineNumber: int, localPath: string)
    ensures StartsWith(filename, "/") ==> BlameArgs(filename, lineNumber, localPath)[4] == filename
    ensures !StartsWith(filename, "/") ==>
      StartsWith(BlameArgs(filename, lineNumber, localPath)[4], localPath) &&
      EndsWith(BlameArgs(filename, lineNumber, localPath)[4], filename)
  {
    JoinPathShape(localPath, filename);
  }

  /** With the default `localPath`, a relative file name is looked up as
      `./<filename>`. */
  lemma BlameArgsDefaultPath(filename: string, lineNumber: int)
    requires !StartsWith(filename, "/")
    ensures BlameArgs(filename, lineNumber)[4] == "./" + filename
  {
    assert !EndsWith(".", "/");
    JoinPathShape(".", filename);
    assert JoinPath(".", filename) == "." + "/" + filename;
  }
}
