/**
 * The Python 2 string and path operations the blame script is built from,
 * with Python's own semantics written out: `str.strip()` and `str.split()`
 * with no argument (ASCII whitespace), `str.split(sep)` and `sep.join(parts)`
 * with a one-character separator, `startswith`/`endswith`, `"%d"` and `"%s"`
 * of an integer, and POSIX `os.path.join` of two components.
 */
module PyText {

  /** The characters Python 2 treats as whitespace in `strip()` and `split()`:
      space, tab, line feed, vertical tab, form feed and carriage return. */
  predicate IsSpace(c: char) { c == ' ' || '\t' <= c <= '\r' }

  predicate AllSpace(s: string) { forall i :: 0 <= i < |s| ==> IsSpace(s[i]) }

  predicate NoSpace(s: string) { forall i :: 0 <= i < |s| ==> !IsSpace(s[i]) }

  /** A word as `split()` produces it: non-empty, without whitespace. */
  predicate IsWord(w: string) { w != [] && NoSpace(w) }

  predicate AllWords(words: seq<string>) { forall k :: 0 <= k < |words| ==> IsWord(words[k]) }

  predicate StartsWith(s: string, prefix: string) {
    |prefix| <= |s| && s[..|prefix|] == prefix
  }

  predicate EndsWith(s: string, suffix: string) {
    |suffix| <= |s| && s[|s| - |suffix|..] == suffix
  }

  /** `s.lstrip()`. */
  function TrimLeft(s: string): string
  {
    if s != [] && IsSpace(s[0]) then TrimLeft(s[1..]) else s
  }

  /** `lstrip()` drops exactly the leading whitespace. */
  lemma {:induction false} TrimLeftDrops(s: string)
    ensures var r := TrimLeft(s);
      EndsWith(s, r) && AllSpace(s[..|s| - |r|]) && (r == [] || !IsSpace(r[0]))
  {
    if s != [] && IsSpace(s[0]) {
      TrimLeftDrops(s[1..]);
      var r := TrimLeft(s);
      assert s[..|s| - |r|] == [s[0]] + s[1..][..|s| - 1 - |r|];
    }
  }

  /** `s.rstrip()`. */
  function TrimRight(s: string): string
  {
    if s != [] && IsSpace(s[|s| - 1]) then TrimRight(s[..|s| - 1]) else s
  }

  /** `rstrip()` drops exactly the trailing whitespace. */
  lemma {:induction false} TrimRightDrops(s: string)
    ensures var r := TrimRight(s);
      StartsWith(s, r) && AllSpace(s[|r|..]) && (r == [] || !IsSpace(r[|r| - 1]))
  {
    if s != [] && IsSpace(s[|s| - 1]) {
      TrimRightDrops(s[..|s| - 1]);
      var r := TrimRight(s);
      assert s[|r|..] == s[..|s| - 1][|r|..] + [s[|s| - 1]];
    }
  }

  /** `s.strip()`. */
  function Strip(s: string): string
  {
    TrimRight(TrimLeft(s))
  }

  /** What `strip()` leaves is a part of `s` with no whitespace at either
      end, and everything it drops is whitespace. */
  lemma StripDrops(s: string)
    ensures |Strip(s)| <= |s|
    ensures Strip(s) == [] || (!IsSpace(Strip(s)[0]) && !IsSpace(Strip(s)[|Strip(s)| - 1]))
    ensures exists i :: (0 <= i <= |s| - |Strip(s)| && s[i..i + |Strip(s)|] == Strip(s) &&
                         AllSpace(s[..i]) && AllSpace(s[i + |Strip(s)|..]))
  {
    var t := TrimLeft(s);
    TrimLeftDrops(s);
    TrimRightDrops(t);
    var r := TrimRight(t);
    var i := |s| - |t|;
    assert s[i..] == t;
    assert r != [] ==> r[0] == t[0];
    assert s[i..i + |r|] == r;
    assert s[i + |r|..] == t[|r|..];
    assert 0 <= i <= |s| - |r| && s[i..i + |r|] == r && AllSpace(s[..i]) && AllSpace(s[i + |r|..]);
  }

  lemma {:induction false} TrimLeftPadded(a: string, s: string)
    requires AllSpace(a) && (s == [] || !IsSpace(s[0]))
    ensures TrimLeft(a + s) == s
  {
    if a != [] {
      assert (a + s)[1..] == a[1..] + s;
      TrimLeftPadded(a[1..], s);
    }
  }

  lemma {:induction false} TrimRightPadded(s: string, b: string)
    requires AllSpace(b) && (s == [] || !IsSpace(s[|s| - 1]))
    ensures TrimRight(s + b) == s
  {
    if b != [] {
      assert (s + b)[..|s + b| - 1] == s + b[..|b| - 1];
      TrimRightPadded(s, b[..|b| - 1]);
    }
  }

  /** `strip()` removes exactly the whitespace around the text: whatever the
      padding, a text without whitespace at its ends comes back unchanged. */
  lemma StripPadded(a: string, r: string, b: string)
    requires AllSpace(a) && AllSpace(b)
    requires r == [] || (!IsSpace(r[0]) && !IsSpace(r[|r| - 1]))
    ensures Strip(a + r + b) == r
  {
    assert a + r + b == a + (r + b);
    if r == [] {
      assert a + r + b == (a + b) + [];
      TrimLeftPadded(a + b, []);
      assert TrimLeft(a + r + b) == [];
    } else {
      TrimLeftPadded(a, r + b);
    }
    TrimRightPadded(r, b);
  }

  /** The length of the run of non-whitespace characters that starts `s`. */
  function WordLength(s: string): (n: nat)
    ensures n <= |s| && NoSpace(s[..n])
    ensures n < |s| ==> IsSpace(s[n])
  {
    if s == [] || IsSpace(s[0]) then 0
    else
      var n := 1 + WordLength(s[1..]);
      assert s[..n] == [s[0]] + s[1..][..n - 1];
      n
  }

  /** `s.split()` with no argument: the maximal runs of non-whitespace, in order. */
  function Split(s: string): seq<string>
    decreases |s|
  {
    if s == [] then []
    else if IsSpace(s[0]) then Split(s[1..])
    else
      var n := WordLength(s);
      [s[..n]] + Split(s[n..])
  }

  /** What `split()` returns are words: non-empty and free of whitespace. */
  lemma {:induction false} SplitWords(s: string)
    ensures AllWords(Split(s))
    decreases |s|
  {
    if s != [] {
      if IsSpace(s[0]) {
        SplitWords(s[1..]);
      } else {
        var n := WordLength(s);
        SplitWords(s[n..]);
      }
    }
  }

  /** `sep.join(parts)`. */
  function Join(parts: seq<string>, sep: char): string
  {
    if parts == [] then ""
    else if |parts| == 1 then parts[0]
    else parts[0] + [sep] + Join(parts[1..], sep)
  }

  /** Leading whitespace does not change what `split()` returns. */
  lemma {:induction false} SplitAfterSpace(a: string, s: string)
    requires AllSpace(a)
    ensures Split(a + s) == Split(s)
  {
    if a != [] {
      assert (a + s)[0] == a[0] && (a + s)[1..] == a[1..] + s;
      SplitAfterSpace(a[1..], s);
    } else {
      assert a + s == s;
    }
  }

  lemma {:induction false} WordLengthOf(w: string, rest: string)
    requires NoSpace(w) && (rest == [] || IsSpace(rest[0]))
    ensures WordLength(w + rest) == |w|
  {
    if w != [] {
      assert (w + rest)[1..] == w[1..] + rest;
      WordLengthOf(w[1..], rest);
    }
  }

  /** A word followed by whitespace (or nothing) is split off whole. */
  lemma SplitWord(w: string, rest: string)
    requires IsWord(w) && (rest == [] || IsSpace(rest[0]))
    ensures Split(w + rest) == [w] + Split(rest)
  {
    var s := w + rest;
    assert s[0] == w[0];
    WordLengthOf(w, rest);
    assert s[..|w|] == w && s[|w|..] == rest;
  }

  /** `split()` of whitespace alone is empty. */
  lemma SplitSpace(pad: string)
    requires AllSpace(pad)
    ensures Split(pad) == []
  {
    SplitAfterSpace(pad, []);
    assert pad + [] == pad;
    assert Split([]) == [];
  }

  /** A word and a single space are split off whatever follows. */
  lemma SplitWordSpace(w: string, tail: string)
    requires IsWord(w)
    ensures Split(w + [' '] + tail) == [w] + Split(tail)
  {
    assert w + [' '] + tail == w + ([' '] + tail);
    SplitWord(w, [' '] + tail);
    SplitAfterSpace([' '], tail);
  }

  /** `split()` undoes `" ".join(words)` for any whitespace-free words, with
      any trailing whitespace (a line break, say) after the last one. */
  lemma {:induction false} SplitJoin(words: seq<string>, pad: string)
    requires AllWords(words)
    requires AllSpace(pad)
    ensures Split(Join(words, ' ') + pad) == words
  {
    if words == [] {
      assert Join(words, ' ') + pad == pad;
      SplitSpace(pad);
    } else if |words| == 1 {
      var w := words[0];
      assert Join(words, ' ') == w;
      SplitWord(w, pad);
      SplitSpace(pad);
    } else {
      var w, rest := words[0], words[1..];
      assert IsWord(w) && AllWords(rest);
      var tail := Join(rest, ' ') + pad;
      assert Join(words, ' ') + pad == w + [' '] + tail;
      SplitWordSpace(w, tail);
      SplitJoin(rest, pad);
      assert words == [w] + rest;
    }
  }

  /** The first index of `c` in `s`, or `|s|` when there is none. */
  function IndexOf(s: string, c: char): (i: nat)
    ensures i <= |s| && c !in s[..i]
    ensures i < |s| ==> s[i] == c
  {
    if s == [] || s[0] == c then 0
    else
      var i := 1 + IndexOf(s[1..], c);
      assert s[..i] == [s[0]] + s[1..][..i - 1];
      i
  }

  /** `s.split(sep)`: the pieces between occurrences of `sep`, empty ones kept. */
  function SplitOn(s: string, sep: char): (parts: seq<string>)
    ensures |parts| >= 1
    decreases |s|
  {
    var i := IndexOf(s, sep);
    if i == |s| then [s] else [s[..i]] + SplitOn(s[i + 1..], sep)
  }

  /** No piece of `s.split(sep)` contains `sep`. */
  lemma {:induction false} SplitOnPieces(s: string, sep: char)
    ensures forall k :: 0 <= k < |SplitOn(s, sep)| ==> sep !in SplitOn(s, sep)[k]
    decreases |s|
  {
    var i := IndexOf(s, sep);
    if i < |s| {
      SplitOnPieces(s[i + 1..], sep);
      var parts, rest := SplitOn(s, sep), SplitOn(s[i + 1..], sep);
      assert parts == [s[..i]] + rest;
      forall k | 0 <= k < |parts| ensures sep !in parts[k] {
        if k > 0 {
          assert parts[k] == rest[k - 1];
        }
      }
    }
  }

  /** Joining the pieces of `s.split(sep)` with `sep` gives `s` back. */
  lemma {:induction false} JoinSplitOn(s: string, sep: char)
    ensures Join(SplitOn(s, sep), sep) == s
    decreases |s|
  {
    var i := IndexOf(s, sep);
    var parts := SplitOn(s, sep);
    if i < |s| {
      var rest := SplitOn(s[i + 1..], sep);
      JoinSplitOn(s[i + 1..], sep);
      assert parts == [s[..i]] + rest && parts[1..] == rest;
      assert Join(parts, sep) == s[..i] + [sep] + Join(rest, sep);
      assert s == s[..i] + [sep] + s[i + 1..];
    } else {
      assert parts == [s];
    }
  }

  /** `s.split(sep)` undoes `sep.join(parts)` when no part contains `sep`. */
  lemma {:induction false} SplitOnJoin(parts: seq<string>, sep: char)
    requires |parts| >= 1
    requires forall k :: 0 <= k < |parts| ==> sep !in parts[k]
    ensures SplitOn(Join(parts, sep), sep) == parts
  {
    var p := parts[0];
    if |parts| == 1 {
      IndexOfAbsent(p, sep);
    } else {
      var rest := Join(parts[1..], sep);
      var s := p + [sep] + rest;
      IndexOfFirst(p, sep, rest);
      assert s[..|p|] == p && s[|p| + 1..] == rest;
      SplitOnJoin(parts[1..], sep);
    }
  }

  lemma IndexOfAbsent(s: string, c: char)
    requires c !in s
    ensures IndexOf(s, c) == |s|
  {
  }

  lemma IndexOfFirst(p: string, c: char, rest: string)
    requires c !in p
    ensures IndexOf(p + [c] + rest, c) == |p|
  {
    var s := p + [c] + rest;
    assert s[|p|] == c;
  }

  /** `str(d)` for one decimal digit. */
  function DigitChar(d: nat): (c: char)
    requires d < 10
    ensures '0' <= c <= '9' && c as int - '0' as int == d
  {
    ('0' as int + d) as char
  }

  predicate IsDigits(s: string) { forall k :: 0 <= k < |s| ==> '0' <= s[k] <= '9' }

  /** `"%d" % n` for a non-negative `n`: decimal digits, no leading zero. */
  function NatToDecimal(n: nat): (r: string)
    ensures r != [] && IsDigits(r)
    ensures r[0] == '0' ==> r == "0"
  {
    if n < 10 then [DigitChar(n)] else NatToDecimal(n / 10) + [DigitChar(n % 10)]
  }

  /** The number a string of decimal digits stands for. */
  function DecimalValue(s: string): nat
    requires IsDigits(s)
  {
    if s == [] then 0
    else 10 * DecimalValue(s[..|s| - 1]) + (s[|s| - 1] as int - '0' as int)
  }

  lemma {:induction false} DecimalRoundTrip(n: nat)
    ensures DecimalValue(NatToDecimal(n)) == n
  {
    if n >= 10 {
      var r := NatToDecimal(n);
      assert r[..|r| - 1] == NatToDecimal(n / 10);
      DecimalRoundTrip(n / 10);
    }
  }

  /** `"%d" % i` and `"%s" % i` for an integer `i`: a minus sign for negatives. */
  function FormatInt(i: int): (r: string)
    ensures r != [] && forall k :: 0 <= k < |r| ==> r[k] == '-' || '0' <= r[k] <= '9'
  {
    if i < 0 then "-" + NatToDecimal(-i) else NatToDecimal(i)
  }

  /** The integer an optional minus sign and decimal digits stand for. */
  function ParseInt(s: string): int
    requires (s != [] && s[0] == '-' && IsDigits(s[1..])) || IsDigits(s)
  {
    if s != [] && s[0] == '-' then -(DecimalValue(s[1..]) as int) else DecimalValue(s)
  }

  /** Parsing the formatted integer gives it back. */
  lemma FormatIntRoundTrip(i: int)
    ensures var r := FormatInt(i);
      ((r[0] == '-' && IsDigits(r[1..])) || IsDigits(r)) && ParseInt(r) == i
  {
    if i < 0 {
      assert FormatInt(i)[1..] == NatToDecimal(-i);
      DecimalRoundTrip(-i);
    } else {
      DecimalRoundTrip(i);
    }
  }

  /** `os.path.join(a, b)` on POSIX: an absolute `b` replaces `a`; otherwise
      `b` is appended, after a "/" unless `a` is empty or already ends in one. */
  function JoinPath(a: string, b: string): string
  {
    if StartsWith(b, "/") then b
    else if a == [] || EndsWith(a, "/") then a + b
    else a + "/" + b
  }

  /** The joined path ends with `b`; when `b` is relative it starts with `a`,
      and a separator is put between them when `a` is non-empty and does
      not already end with one. */
  lemma JoinPathShape(a: string, b: string)
    ensures EndsWith(JoinPath(a, b), b)
    ensures !StartsWith(b, "/") ==> StartsWith(JoinPath(a, b), a)
    ensures !StartsWith(b, "/") && a != [] && !EndsWith(a, "/") ==>
      |JoinPath(a, b)| == |a| + 1 + |b| && JoinPath(a, b)[|a|] == '/'
  {
    var r := JoinPath(a, b);
    assert r[|r| - |b|..] == b;
    if !StartsWith(b, "/") {
      assert r[..|a|] == a;
    }
  }
}
