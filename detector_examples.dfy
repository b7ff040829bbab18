/**
 * The detector applied, as proofs, to two small PHP files: the class in
 * scripts/test.php, and a four-line file holding one documented, one
 * undocumented and one magic method.
 */
module DetectorExamples {
  import opened PyText
  import opened Detector

  /** A line as iterating over a file yields it: `indent` spaces, the words
      separated by single spaces, then the line break. */
  function Line(indent: nat, words: seq<string>): string
  {
    seq(indent, _ => ' ') + Join(words, ' ') + "\n"
  }

  /** The text of such a line, its words joined by single spaces, neither
      starts nor ends with whitespace. */
  lemma {:induction false} JoinEnds(words: seq<string>)
    requires AllWords(words)
    ensures words == [] ==> Join(words, ' ') == []
    ensures words != [] ==> (
      words[0] != [] && words[|words| - 1] != [] && Join(words, ' ') != [] &&
      Join(words, ' ')[0] == words[0][0] &&
      Join(words, ' ')[|Join(words, ' ')| - 1] == words[|words| - 1][|words[|words| - 1]| - 1])
  {
    if words != [] {
      assert IsWord(words[0]) && IsWord(words[|words| - 1]);
    }
    if |words| > 1 {
      var rest := words[1..];
      JoinEnds(rest);
      assert Join(words, ' ') == words[0] + [' '] + Join(rest, ' ');
      assert words[|words| - 1] == rest[|rest| - 1];
    }
  }

  /** Tokenising such a line gives back exactly its words. */
  lemma LineTokens(indent: nat, words: seq<string>)
    requires AllWords(words)
    ensures Tokens(Line(indent, words)) == words
  {
    var pad, text := seq(indent, _ => ' '), Join(words, ' ');
    JoinEnds(words);
    StripPadded(pad, text, "\n");
    SplitJoin(words, []);
    assert text + [] == text;
  }

  /** The three token tests of the detector, read off the words of a line. */
  predicate WordsDeclare(words: seq<string>)
  {
    |words| > 0 && words[0] == "public" && "function" in words &&
    forall t :: t in words ==> !StartsWith(t, "__")
  }

  /** Whether entry `i` of a file given as words is reported, read off its words. */
  predicate WordsReported(text: seq<(nat, seq<string>)>, i: nat)
    requires i < |text|
  {
    text[i].1 != [CommentEnd] && !(i > 0 && text[i - 1].1 == [CommentEnd]) &&
    WordsDeclare(text[i].1)
  }

  /** How the detector classifies a line built from words: it closes a
      comment exactly when its only word is the comment end marker, and it
      declares a public function exactly when its words pass the three tests. */
  lemma LineClass(indent: nat, words: seq<string>)
    requires AllWords(words)
    ensures ClosesComment(Line(indent, words)) <==> words == [CommentEnd]
    ensures DeclaresPublicFunction(Line(indent, words)) <==> WordsDeclare(words)
  {
    var line := Line(indent, words);
    LineTokens(indent, words);
    if ClosesComment(line) {
      CommentEndTokens(line);
    }
    if words == [CommentEnd] {
      var pad := seq(indent, _ => ' ');
      assert Join(words, ' ') == CommentEnd;
      StripPadded(pad, CommentEnd, "\n");
    }
  }

  /** The lines of a file given as indentation and words. */
  function Render(text: seq<(nat, seq<string>)>): seq<string>
  {
    seq(|text|, i requires 0 <= i < |text| => Line(text[i].0, text[i].1))
  }

  /** On a file made of such lines, whether line `i` is reported can be read
      off the words of line `i` and of the line before it. */
  lemma RenderReported(text: seq<(nat, seq<string>)>, i: nat)
    requires forall k :: 0 <= k < |text| ==> AllWords(text[k].1)
    requires i < |text|
    ensures Reported(Render(text), i) <==> WordsReported(text, i)
  {
    var lines := Render(text);
    assert lines[i] == Line(text[i].0, text[i].1);
    LineClass(text[i].0, text[i].1);
    if i > 0 {
      assert lines[i - 1] == Line(text[i - 1].0, text[i - 1].1);
      LineClass(text[i - 1].0, text[i - 1].1);
    }
  }

  /** Words none of which starts with an underscore have no `__` token. */
  lemma NoDunder(words: seq<string>)
    requires forall k :: 0 <= k < |words| ==> words[k] != [] && words[k][0] != '_'
    ensures forall t :: t in words ==> !StartsWith(t, "__")
  {
    forall t | t in words ensures !StartsWith(t, "__") {
      if |t| >= 2 {
        assert t[..2][0] == t[0];
      }
    }
  }

  /** A list of words whose two halves are lists of words. */
  lemma AllWordsHalves(words: seq<string>, m: nat)
    requires m <= |words| && AllWords(words[..m]) && AllWords(words[m..])
    ensures AllWords(words)
  {
    forall k | 0 <= k < |words| ensures IsWord(words[k]) {
      if k < m {
        assert words[k] == words[..m][k];
      } else {
        assert words[k] == words[m..][k - m];
      }
    }
  }

  /** When exactly one line is reported, it is the only finding. */
  lemma {:induction false} FindingsInSingle(lines: seq<string>, j: nat, n: nat)
    requires j < |lines| && n <= |lines|
    requires forall i :: 0 <= i < |lines| ==> (Reported(lines, i) <==> i == j)
    ensures FindingsIn(lines, n) == if j < n then [Finding(j, lines[j])] else []
  {
    if n > 0 {
      FindingsInSingle(lines, j, n - 1);
      var tail := if Reported(lines, n - 1) then [Finding(n - 1, lines[n - 1])] else [];
      assert FindingsIn(lines, n) == FindingsIn(lines, n - 1) + tail;
      if n - 1 == j {
        assert tail == [Finding(j, lines[j])];
      } else {
        assert tail == [];
      }
    }
  }

  /** The words of each line of scripts/test.php, counting lines from 0. */
  const TestPhpWords0: seq<string> := ["<?php"]
  const TestPhpWords1: seq<string> := ["class", "Enum", "{"]
  const TestPhpWords2: seq<string> := ["public", "$self", "=", "array();"]
  const TestPhpWords3: seq<string> := ["public", "function", "__construct(", "/*...*/", ")", "{"]
  const TestPhpWords4: seq<string> := ["$args", "=", "func_get_args();"]
  const TestPhpWords5: seq<string> := ["for(", "$i=0,", "$n=count($args);", "$i<$n;", "$i++", ")"]
  const TestPhpWords6: seq<string> := ["$this->add($args[$i]);"]
  const TestPhpWords7: seq<string> := ["}"]
  const TestPhpWords8: seq<string> := []
  const TestPhpWords9: seq<string> := ["public", "function", "__get(", "/*string*/", "$name", "=", "null", ")", "{"]
  const TestPhpWords10: seq<string> := ["return", "$this->self[$name];"]
  const TestPhpWords11: seq<string> := ["}"]
  const TestPhpWords12: seq<string> := []
  const TestPhpWords13: seq<string> := ["public", "function", "add(", "/*string*/", "$name", "=", "null,", "/*int*/", "$enum", "=", "null", ")", "{"]
  const TestPhpWords14: seq<string> := ["if(", "isset($enum)", ")"]
  const TestPhpWords15: seq<string> := ["$this->self[$name]", "=", "$enum;"]
  const TestPhpWords16: seq<string> := ["else"]
  const TestPhpWords17: seq<string> := ["$this->self[$name]", "=", "end($this->self)", "+", "1;"]
  const TestPhpWords18: seq<string> := ["}"]
  const TestPhpWords19: seq<string> := ["}"]

  /** scripts/test.php, one entry per line: its indentation and its words. */
  const TestPhpText: seq<(nat, seq<string>)> := [
    (0, TestPhpWords0),
    (0, TestPhpWords1),
    (4, TestPhpWords2),
    (4, TestPhpWords3),
    (8, TestPhpWords4),
    (8, TestPhpWords5),
    (12, TestPhpWords6),
    (4, TestPhpWords7),
    (4, TestPhpWords8),
    (4, TestPhpWords9),
    (8, TestPhpWords10),
    (4, TestPhpWords11),
    (4, TestPhpWords12),
    (4, TestPhpWords13),
    (8, TestPhpWords14),
    (12, TestPhpWords15),
    (8, TestPhpWords16),
    (12, TestPhpWords17),
    (4, TestPhpWords18),
    (0, TestPhpWords19)
  ]

  /** Line by line, every line of scripts/test.php is a list of words, and
      only line 13 (0-based) passes the three token tests: the constructor
      and `__get` fail the `__` test, `public $self` has no `function` token,
      and no other line starts with `public`. */
  lemma TestPhpLine0Words()
    ensures AllWords(TestPhpWords0)
  {
  }

  lemma TestPhpLine0()
    ensures AllWords(TestPhpWords0) && !WordsDeclare(TestPhpWords0)
    ensures TestPhpWords0[0] != "public"
  {
    TestPhpLine0Words();
  }

  lemma TestPhpLine1Words()
    ensures AllWords(TestPhpWords1)
  {
  }

  lemma TestPhpLine1()
    ensures AllWords(TestPhpWords1) && !WordsDeclare(TestPhpWords1)
    ensures TestPhpWords1[0] != "public"
  {
    TestPhpLine1Words();
  }

  lemma TestPhpLine2Words()
    ensures AllWords(TestPhpWords2)
  {
  }

  lemma TestPhpLine2()
    ensures AllWords(TestPhpWords2) && !WordsDeclare(TestPhpWords2)
    ensures TestPhpWords2[0] == "public" && "function" !in TestPhpWords2
  {
    TestPhpLine2Words();
  }

  lemma TestPhpLine3Words()
    ensures AllWords(TestPhpWords3)
  {
  }

  lemma TestPhpLine3()
    ensures AllWords(TestPhpWords3) && !WordsDeclare(TestPhpWords3)
    ensures TestPhpWords3[0] == "public" && "function" in TestPhpWords3
    ensures exists t :: t in TestPhpWords3 && StartsWith(t, "__")
  {
    TestPhpLine3Words();
    assert TestPhpWords3[1] == "function";
    assert TestPhpWords3[2] in TestPhpWords3 && StartsWith(TestPhpWords3[2], "__");
  }

  lemma TestPhpLine4Words()
    ensures AllWords(TestPhpWords4)
  {
  }

  lemma TestPhpLine4()
    ensures AllWords(TestPhpWords4) && !WordsDeclare(TestPhpWords4)
    ensures TestPhpWords4[0] != "public"
  {
    TestPhpLine4Words();
  }

  lemma TestPhpLine5Words()
    ensures AllWords(TestPhpWords5)
  {
  }

  lemma TestPhpLine5()
    ensures AllWords(TestPhpWords5) && !WordsDeclare(TestPhpWords5)
    ensures TestPhpWords5[0] != "public"
  {
    TestPhpLine5Words();
  }

  lemma TestPhpLine6Words()
    ensures AllWords(TestPhpWords6)
  {
  }

  lemma TestPhpLine6()
    ensures AllWords(TestPhpWords6) && !WordsDeclare(TestPhpWords6)
    ensures TestPhpWords6[0] != "public"
  {
    TestPhpLine6Words();
  }

  lemma TestPhpLine7Words()
    ensures AllWords(TestPhpWords7)
  {
  }

  lemma TestPhpLine7()
    ensures AllWords(TestPhpWords7) && !WordsDeclare(TestPhpWords7)
    ensures TestPhpWords7[0] != "public"
  {
    TestPhpLine7Words();
  }

  lemma TestPhpLine8()
    ensures AllWords(TestPhpWords8) && !WordsDeclare(TestPhpWords8)
    ensures TestPhpWords8 == []
  {
  }

  lemma TestPhpLine9Head()
    ensures AllWords(TestPhpWords9[..4])
  {
  }

  lemma TestPhpLine9Tail()
    ensures AllWords(TestPhpWords9[4..])
  {
  }

  lemma TestPhpLine9Words()
    ensures AllWords(TestPhpWords9)
  {
    TestPhpLine9Head();
    TestPhpLine9Tail();
    AllWordsHalves(TestPhpWords9, 4);
  }

  lemma TestPhpLine9()
    ensures AllWords(TestPhpWords9) && !WordsDeclare(TestPhpWords9)
    ensures TestPhpWords9[0] == "public" && "function" in TestPhpWords9
    ensures exists t :: t in TestPhpWords9 && StartsWith(t, "__")
  {
    TestPhpLine9Words();
    assert TestPhpWords9[1] == "function";
    assert TestPhpWords9[2] in TestPhpWords9 && StartsWith(TestPhpWords9[2], "__");
  }

  lemma TestPhpLine10Words()
    ensures AllWords(TestPhpWords10)
  {
  }

  lemma TestPhpLine10()
    ensures AllWords(TestPhpWords10) && !WordsDeclare(TestPhpWords10)
    ensures TestPhpWords10[0] != "public"
  {
    TestPhpLine10Words();
  }

  lemma TestPhpLine11Words()
    ensures AllWords(TestPhpWords11)
  {
  }

  lemma TestPhpLine11()
    ensures AllWords(TestPhpWords11) && !WordsDeclare(TestPhpWords11)
    ensures TestPhpWords11[0] != "public"
  {
    TestPhpLine11Words();
  }

  lemma TestPhpLine12()
    ensures AllWords(TestPhpWords12) && !WordsDeclare(TestPhpWords12)
    ensures TestPhpWords12 == []
  {
  }

  lemma TestPhpLine13Head()
    ensures AllWords(TestPhpWords13[..7])
  {
  }

  lemma TestPhpLine13Tail()
    ensures AllWords(TestPhpWords13[7..])
  {
  }

  lemma TestPhpLine13Words()
    ensures AllWords(TestPhpWords13)
  {
    TestPhpLine13Head();
    TestPhpLine13Tail();
    AllWordsHalves(TestPhpWords13, 7);
  }

  lemma TestPhpLine13()
    ensures AllWords(TestPhpWords13) && WordsDeclare(TestPhpWords13)
  {
    TestPhpLine13Words();
    NoDunder(TestPhpWords13);
    assert TestPhpWords13[0] == "public" && TestPhpWords13[1] == "function";
  }

  lemma TestPhpLine14Words()
    ensures AllWords(TestPhpWords14)
  {
  }

  lemma TestPhpLine14()
    ensures AllWords(TestPhpWords14) && !WordsDeclare(TestPhpWords14)
    ensures TestPhpWords14[0] != "public"
  {
    TestPhpLine14Words();
  }

  lemma TestPhpLine15Words()
    ensures AllWords(TestPhpWords15)
  {
  }

  lemma TestPhpLine15()
    ensures AllWords(TestPhpWords15) && !WordsDeclare(TestPhpWords15)
    ensures TestPhpWords15[0] != "public"
  {
    TestPhpLine15Words();
  }

  lemma TestPhpLine16Words()
    ensures AllWords(TestPhpWords16)
  {
  }

  lemma TestPhpLine16()
    ensures AllWords(TestPhpWords16) && !WordsDeclare(TestPhpWords16)
    ensures TestPhpWords16[0] != "public"
  {
    TestPhpLine16Words();
  }

  lemma TestPhpLine17Head()
    ensures AllWords(TestPhpWords17[..2])
  {
  }

  lemma TestPhpLine17Tail()
    ensures AllWords(TestPhpWords17[2..])
  {
  }

  lemma TestPhpLine17Words()
    ensures AllWords(TestPhpWords17)
  {
    TestPhpLine17Head();
    TestPhpLine17Tail();
    AllWordsHalves(TestPhpWords17, 2);
  }

  lemma TestPhpLine17()
    ensures AllWords(TestPhpWords17) && !WordsDeclare(TestPhpWords17)
    ensures TestPhpWords17[0] != "public"
  {
    TestPhpLine17Words();
  }

  lemma TestPhpLine18Words()
    ensures AllWords(TestPhpWords18)
  {
  }

  lemma TestPhpLine18()
    ensures AllWords(TestPhpWords18) && !WordsDeclare(TestPhpWords18)
    ensures TestPhpWords18[0] != "public"
  {
    TestPhpLine18Words();
  }

  lemma TestPhpLine19Words()
    ensures AllWords(TestPhpWords19)
  {
  }

  lemma TestPhpLine19()
    ensures AllWords(TestPhpWords19) && !WordsDeclare(TestPhpWords19)
    ensures TestPhpWords19[0] != "public"
  {
    TestPhpLine19Words();
  }

  /** Lines 0 to 4 of scripts/test.php split into words, and none of them is reported. */
  lemma TestPhpLines0(i: nat)
    requires 0 <= i < 5
    ensures AllWords(TestPhpText[i].1)
    ensures WordsReported(TestPhpText, i) <==> i == 13
  {
    if i == 0 {
      TestPhpLine0();
    } else if i == 1 {
      TestPhpLine1();
    } else if i == 2 {
      TestPhpLine2();
    } else if i == 3 {
      TestPhpLine3();
    } else {
      TestPhpLine4();
    }
  }

  /** Lines 5 to 9 of scripts/test.php split into words, and none of them is reported. */
  lemma TestPhpLines5(i: nat)
    requires 5 <= i < 10
    ensures AllWords(TestPhpText[i].1)
    ensures WordsReported(TestPhpText, i) <==> i == 13
  {
    if i == 5 {
      TestPhpLine5();
    } else if i == 6 {
      TestPhpLine6();
    } else if i == 7 {
      TestPhpLine7();
    } else if i == 8 {
      TestPhpLine8();
    } else {
      TestPhpLine9();
    }
  }

  /** Lines 10 to 14 of scripts/test.php split into words, and only line 13 among them is reported. */
  lemma TestPhpLines10(i: nat)
    requires 10 <= i < 15
    ensures AllWords(TestPhpText[i].1)
    ensures WordsReported(TestPhpText, i) <==> i == 13
  {
    if i == 10 {
      TestPhpLine10();
    } else if i == 11 {
      TestPhpLine11();
    } else if i == 12 {
      TestPhpLine12();
    } else if i == 13 {
      TestPhpLine13();
      TestPhpLine12();
    } else {
      TestPhpLine14();
    }
  }

  /** Lines 15 to 19 of scripts/test.php split into words, and none of them is reported. */
  lemma TestPhpLines15(i: nat)
    requires 15 <= i < 20
    ensures AllWords(TestPhpText[i].1)
    ensures WordsReported(TestPhpText, i) <==> i == 13
  {
    if i == 15 {
      TestPhpLine15();
    } else if i == 16 {
      TestPhpLine16();
    } else if i == 17 {
      TestPhpLine17();
    } else if i == 18 {
      TestPhpLine18();
    } else {
      TestPhpLine19();
    }
  }

  /** Every line of scripts/test.php is a list of words, and only line 13 is
      reported. */
  lemma TestPhpLines(i: nat)
    requires i < |TestPhpText|
    ensures AllWords(TestPhpText[i].1)
    ensures WordsReported(TestPhpText, i) <==> i == 13
  {
    if i < 5 {
      TestPhpLines0(i);
    } else if i < 10 {
      TestPhpLines5(i);
    } else if i < 15 {
      TestPhpLines10(i);
    } else {
      TestPhpLines15(i);
    }
  }

  /** On scripts/test.php the detector yields exactly one finding: index 13
      (the fourteenth line), the declaration of `add`, paired with its raw
      line. The constructor and `__get` fail the `__` test, `public $self`
      has no `function` token, and no other line starts with `public`. */
  lemma TestPhpFindings()
    ensures Findings(Render(TestPhpText)) == [Finding(13, Render(TestPhpText)[13])]
  {
    var lines := Render(TestPhpText);
    forall k | 0 <= k < |TestPhpText| ensures AllWords(TestPhpText[k].1) {
      TestPhpLines(k);
    }
    forall i | 0 <= i < |lines| ensures Reported(lines, i) <==> i == 13 {
      RenderReported(TestPhpText, i);
      TestPhpLines(i);
    }
    FindingsInSingle(lines, 13, |lines|);
  }

  /** Whatever the detector yields on scripts/test.php is at index 13. */
  lemma TestPhpFindingIndex(f: Finding)
    requires f in Findings(Render(TestPhpText))
    ensures f.index == 13
  {
    forall k | 0 <= k < |TestPhpText| ensures AllWords(TestPhpText[k].1) {
      TestPhpLines(k);
    }
    FindingsExactly(Render(TestPhpText), f);
    RenderReported(TestPhpText, f.index);
    TestPhpLines(f.index);
  }

  /** A four-line file: a comment close, then a documented, an undocumented
      and a magic method. */
  const FourLines: seq<(nat, seq<string>)> := [
    (0, [CommentEnd]),
    (0, ["public", "function", "documented()", "{}"]),
    (0, ["public", "function", "undocumented()", "{}"]),
    (0, ["public", "function", "__magic()", "{}"])
  ]

  /** Line by line, every line of that file is a list of words; the first
      closes a comment, and only the third passes the three token tests. */
  lemma FourLinesLine0()
    ensures AllWords(FourLines[0].1) && FourLines[0].1 == [CommentEnd]
  {
    assert FourLines[0].1 == [CommentEnd] && AllWords([CommentEnd]);
  }

  lemma FourLinesLine1()
    ensures AllWords(FourLines[1].1) && FourLines[1].1 != [CommentEnd]
  {
    var w := ["public", "function", "documented()", "{}"];
    assert FourLines[1].1 == w && AllWords(w) && w[0] != CommentEnd;
  }

  lemma FourLinesLine2()
    ensures AllWords(FourLines[2].1) && WordsDeclare(FourLines[2].1)
  {
    var w := ["public", "function", "undocumented()", "{}"];
    assert FourLines[2].1 == w;
    AllWordsHalves(w, 2);
    NoDunder(w);
    assert w[0] == "public" && "function" in w;
  }

  lemma FourLinesLine3()
    ensures AllWords(FourLines[3].1) && !WordsDeclare(FourLines[3].1)
  {
    var w := ["public", "function", "__magic()", "{}"];
    assert FourLines[3].1 == w && AllWords(w);
    assert w[2] in w && StartsWith(w[2], "__");
  }

  /** Every line of that file is a list of words. */
  lemma FourLinesAllWords()
    ensures forall k :: 0 <= k < |FourLines| ==> AllWords(FourLines[k].1)
  {
    forall k | 0 <= k < |FourLines| ensures AllWords(FourLines[k].1) {
      if k == 0 {
        FourLinesLine0();
      } else if k == 1 {
        FourLinesLine1();
      } else if k == 2 {
        FourLinesLine2();
      } else {
        FourLinesLine3();
      }
    }
  }

  /** Entry by entry, only entry 2 of that file is reported. */
  lemma FourLinesWordsReported(i: nat)
    requires i < |FourLines|
    ensures WordsReported(FourLines, i) <==> i == 2
  {
    if i == 0 {
      FourLinesLine0();
    } else if i == 1 {
      FourLinesLine0();
    } else if i == 2 {
      FourLinesLine1();
      FourLinesLine2();
      assert FourLines[2].1[0] == "public";
    } else {
      FourLinesLine3();
    }
  }

  /** On that file only the undocumented method is reported, at index 2 (the
      third line): the documented one follows the comment close, and the
      magic one has a `__` token. */
  lemma FourLinesFindings()
    ensures Findings(Render(FourLines)) == [Finding(2, Render(FourLines)[2])]
  {
    var lines := Render(FourLines);
    FourLinesAllWords();
    forall i | 0 <= i < |lines| ensures Reported(lines, i) <==> i == 2 {
      RenderReported(FourLines, i);
      FourLinesWordsReported(i);
    }
    FindingsInSingle(lines, 2, |lines|);
  }
}
