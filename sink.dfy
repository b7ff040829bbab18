/**
 * What `mailworker` in scripts/blame.py appends to `blames.csv` for one
 * blamed line: the part of the author's address before the `@`, the file
 * path moved under `www`, and the line number, separated by commas. Opening
 * and appending to the file under the lock is not part of this model; the
 * row it writes is.
 */
module Sink {
  import opened Wrappers
  import opened PyText
  import opened GitBlame

  /** `email.split('@')[0]`: everything before the first `@`, or the whole
      address when it has none. */
  function Recipient(email: string): (r: string)
    ensures '@' !in r
    ensures StartsWith(email, r)
    ensures |r| == |email| || email[|r|] == '@'
  {
    var parts := SplitOn(email, '@');
    SplitOnPieces(email, '@');
    assert parts[0] == email[..IndexOf(email, '@')];
    parts[0]
  }

  /** The user part of `user@domain` is `user`, whatever the domain holds. */
  lemma RecipientOfAddress(user: string, domain: string)
    requires '@' !in user
    ensures Recipient(user + "@" + domain) == user
  {
    var email := user + "@" + domain;
    var r := Recipient(email);
    assert email[..|user|] == user && email[|user|] == '@';
  }

  /** `'www' + filename[1:]`: the first character is replaced by `www`; an
      empty name becomes `www`. */
  function WwwPath(filename: string): (r: string)
    ensures StartsWith(r, "www")
    ensures |r| == if filename == [] then 3 else |filename| + 2
    ensures forall k :: 1 <= k < |filename| ==> r[k + 2] == filename[k]
  {
    "www" + (if filename == [] then [] else filename[1..])
  }

  /** A path the scan produces, `./<rest>`, is published as `www/<rest>`. */
  lemma WwwPathOfScanned(rest: string)
    ensures WwwPath("./" + rest) == "www/" + rest
  {
    assert ("./" + rest)[1..] == "/" + rest;
  }

  /** Two paths that start with the same character are published under
      different names exactly when they differ. */
  lemma WwwPathInjective(a: string, b: string)
    requires a != [] && b != [] && a[0] == b[0]
    ensures WwwPath(a) == WwwPath(b) <==> a == b
  {
    if WwwPath(a) == WwwPath(b) {
      assert |a| == |b|;
      forall k | 0 <= k < |a| ensures a[k] == b[k] {
        if k > 0 {
          assert WwwPath(a)[k + 2] == WwwPath(b)[k + 2];
        }
      }
    }
  }

  /** `"%s,%s,%s\n" % (recipient, filename, line_number)`. */
  function FormatRow(recipient: string, path: string, lineNumber: int): (row: string)
    ensures |row| > 0 && row[|row| - 1] == '\n'
  {
    recipient + "," + path + "," + FormatInt(lineNumber) + "\n"
  }

  /** A row whose recipient and path hold no line break has exactly one, at
      its end. */
  lemma FormatRowOneLine(recipient: string, path: string, lineNumber: int)
    requires '\n' !in recipient && '\n' !in path
    ensures var row := FormatRow(recipient, path, lineNumber);
      forall k :: 0 <= k < |row| - 1 ==> row[k] != '\n'
  {
    var row := FormatRow(recipient, path, lineNumber);
    var n := FormatInt(lineNumber);
    forall k | 0 <= k < |row| - 1 ensures row[k] != '\n' {
      if k < |recipient| {
        assert row[k] == recipient[k];
      } else if |recipient| < k < |recipient| + 1 + |path| {
        assert row[k] == path[k - |recipient| - 1];
      } else if |recipient| + 1 + |path| < k {
        assert row[k] == n[k - |recipient| - |path| - 2];
      }
    }
  }

  /** A row whose recipient and path hold no comma splits back, before its
      line break, into the recipient, the path and the line number. */
  lemma FormatRowFields(recipient: string, path: string, lineNumber: int)
    requires ',' !in recipient && ',' !in path
    ensures SplitOn(FormatRow(recipient, path, lineNumber)[..|FormatRow(recipient, path, lineNumber)| - 1], ',') ==
      [recipient, path, FormatInt(lineNumber)]
  {
    var row := FormatRow(recipient, path, lineNumber);
    var n := FormatInt(lineNumber);
    assert ',' !in n;
    SplitOnJoin([recipient, path, n], ',');
    assert [recipient, path, n][1..] == [path, n] && [path, n][1..] == [n];
    assert Join([path, n], ',') == path + [','] + n;
    assert Join([recipient, path, n], ',') == recipient + [','] + (path + [','] + n);
    assert row[..|row| - 1] == recipient + [','] + (path + [','] + n);
  }

  /** The body of `mailworker` for one blamed line: the row it appends, or the
      error `get_email_from_blame` raises, which ends the worker before
      anything is written. */
  function MailRow(blame: string, filename: string, lineNumber: int): (r: Result<string, ValueError>)
    ensures r.Failure? <==> EmailFromBlame(blame).Failure?
    ensures r.Failure? ==> r.error == ValueError(CouldNotGetEmail)
  {
    match EmailFromBlame(blame)
      case Success(email) => Success(FormatRow(Recipient(email), WwwPath(filename), lineNumber))
      case Failure(e) => Failure(e)
  }

  /** For a blame whose author line reads `author-mail <user@domain>`, the
      row for `./<rest>` names `user`, `www/<rest>` and the line; an empty
      `user` gives a row with an empty first field. */
  lemma MailRowOfAuthor(user: string, domain: string, rest: string, lineNumber: int)
    requires '@' !in user && '\n' !in user && '\n' !in domain
    ensures MailRow(AuthorMailPrefix + user + "@" + domain + ">", "./" + rest, lineNumber) ==
      Success(FormatRow(user, "www/" + rest, lineNumber))
  {
    var email := user + "@" + domain;
    var blame := AuthorMailPrefix + user + "@" + domain + ">";
    assert blame == AuthorMailPrefix + email + ">";
    assert '\n' !in email;
    EmailRoundTrip(email);
    assert EmailFromBlame(blame) == Success(email);
    RecipientOfAddress(user, domain);
    WwwPathOfScanned(rest);
  }
}
