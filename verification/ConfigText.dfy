/** The format of tests.conf (bin/test.c), spelled out: decimal numbers, words between blanks,
    the kinds of lines, and what the files of the suite say. */
module ConfigText {
  import opened Hiding
  import opened Chars
  import opened ConfigMeaning
  import opened ConfigStale

  // ---------- numbers ----------

  /** The decimal digits of n. */
  function Shown(n: nat): (s: string)
    ensures s != ""
  {
    (if n < 10 then "" else Shown(n / 10)) + ["0123456789"[n % 10]]
  }

  lemma DigitAt(d: nat)
    requires d < 10
    ensures "0123456789"[d] as int == 48 + d
  {
  }

  lemma DigitIs(c: char)
    ensures IsDigit(c) <==> c in "0123456789"
  {
    var d := "0123456789";
    if IsDigit(c) {
      DigitAt(c as int - 48);
      assert d[c as int - 48] == c;
    }
    if c in d {
      var i :| 0 <= i < 10 && d[i] == c;
      DigitAt(i);
    }
  }

  lemma SpaceIs(c: char)
    ensures IsSpace(c) <==> c as int in {32, 9, 10, 11, 12, 13}
  {
  }

  lemma {:induction false} DigitsShown(n: nat, rest: string)
    ensures Digits(Shown(n) + rest, 0) == Digits(rest, n)
    decreases n
  {
    var d := "0123456789"[n % 10];
    DigitAt(n % 10);
    var more := [d] + rest;
    assert more[1..] == rest && more[0] == d && IsDigit(d);
    if n < 10 {
      assert Shown(n) + rest == more;
    } else {
      assert Shown(n) + rest == Shown(n / 10) + more;
      DigitsShown(n / 10, more);
    }
  }

  lemma {:induction false} ShownDigits(n: nat)
    ensures forall i :: 0 <= i < |Shown(n)| ==> IsDigit(Shown(n)[i])
    decreases n
  {
    DigitAt(n % 10);
    if n >= 10 { ShownDigits(n / 10); }
  }

  /** The text after a number does not begin with a digit. */
  ghost predicate Ends(rest: string) {
    rest == "" || rest[0] !in "0123456789"
  }

  ghost predicate White(s: string) {
    forall i {:trigger s[i]} :: 0 <= i < |s| ==> s[i] as int in {32, 9, 10, 11, 12, 13}
  }

  lemma {:induction false} AtoiWhite(white: string, s: string)
    requires White(white)
    ensures Atoi(white + s) == Atoi(s)
  {
    if white == "" {
      assert white + s == s;
    } else {
      var c, q := white[0], white + s;
      assert IsSpace(c) && q[0] == c && q[1..] == white[1..] + s;
      AtoiWhite(white[1..], s);
    }
  }

  /** atoi reads back every number that has been written in decimal, after white space, with
      or without a sign, and up to the first other character. */
  lemma AtoiShown(white: string, n: nat, rest: string)
    requires White(white) && Ends(rest)
    ensures Atoi(white + (Shown(n) + rest)) == n
    ensures Atoi(white + ("-" + Shown(n) + rest)) == -(n as int)
    ensures Atoi(white + ("+" + Shown(n) + rest)) == n
  {
    AtoiWhite(white, Shown(n) + rest);
    AtoiWhite(white, "-" + Shown(n) + rest);
    AtoiWhite(white, "+" + Shown(n) + rest);
    DigitsShown(n, rest);
    if rest != "" { DigitIs(rest[0]); }
    ShownDigits(n);
    var c := (Shown(n) + rest)[0];
    assert c == Shown(n)[0] && IsDigit(c);
    assert ("-" + Shown(n) + rest)[1..] == Shown(n) + rest;
    assert ("+" + Shown(n) + rest)[1..] == Shown(n) + rest;
  }

  /** What a word does that sets a number. */
  lemma NumberWord(t: Settings, p: string, n: nat, word: string)
    requires p in {"timeout=", "expected_rc=", "signal="} && word == p + Shown(n)
    ensures Apply(t, word) == if p == "timeout=" then t.(timeout := n)
                              else if p == "expected_rc=" then t.(expectedRc := n)
                              else t.(expectedSig := n)
  {
    AtoiShown("", n, "");
    assert "" + (Shown(n) + "") == Shown(n);
    assert StartsWith(word, p) && word[|p|..] == Shown(n) && word[0] == p[0];
    OneWord(t, word);
    OneKind(word);
  }

  // ---------- words ----------

  ghost predicate Blank(s: string) {
    forall i {:trigger s[i]} :: 0 <= i < |s| ==> s[i] as int in {32, 9}
  }

  ghost predicate IsWord(s: string) {
    s != "" && forall i {:trigger s[i]} :: 0 <= i < |s| ==> s[i] as int !in {32, 9}
  }

  /** The words with these gaps between and behind them. */
  function Spread(words: seq<string>, gaps: seq<string>): string
    requires |gaps| == |words|
  {
    if words == [] then "" else words[0] + (gaps[0] + Spread(words[1..], gaps[1..]))
  }

  /** There are blanks between any two words.  The details come with `Look`. */
  ghost predicate Gaps(words: seq<string>, gaps: seq<string>) {
    && |gaps| == |words|
    && forall n: int {:trigger Look(n)} :: Look(n) ==>
         forall i {:trigger words[i]} {:trigger gaps[i]} :: 0 <= i < |words| ==>
         IsWord(words[i]) && Blank(gaps[i]) && (i + 1 < |words| ==> gaps[i] != "")
  }

  /** text consists of these words and gaps.  The details come with `Look`. */
  ghost predicate IsSpread(text: string, words: seq<string>, gaps: seq<string>) {
    Gaps(words, gaps) && forall n: int {:trigger Look(n)} :: Look(n) ==> text == Spread(words, gaps)
  }

  lemma SpreadFirst(text: string, words: seq<string>, gaps: seq<string>)
      returns (w: string, g: string, more: seq<string>, moreGaps: seq<string>, rest: string)
    requires IsSpread(text, words, gaps) && words != []
    ensures words == [w] + more && |more| < |words| && IsSpread(rest, more, moreGaps)
    ensures IsWord(w) && Blank(g) && (g == "" ==> rest == "") && text == w + (g + rest)
  {
    assert Look(0);
    w, g, more, moreGaps := words[0], gaps[0], words[1..], gaps[1..];
    forall i | 0 <= i < |more| ensures IsWord(more[i]) && Blank(moreGaps[i]) && (i + 1 < |more| ==> moreGaps[i] != "") {
      assert words[i + 1] == more[i] && gaps[i + 1] == moreGaps[i];
    }
    rest := Spread(more, moreGaps);
  }

  lemma SkipIs(s: string, i: nat, j: nat, delimiters: bool)
    requires i <= j <= |s| && (forall k :: i <= k < j ==> (s[k] as int in {32, 9}) == delimiters)
    requires j < |s| ==> (s[j] as int in {32, 9}) != delimiters
    ensures Skip(s, i, delimiters) == j
  {
    assert forall c: char :: IsDelimiter(c) <==> c as int in {32, 9};
  }

  /** Behind the blank part b of the line, which begins at i, comes the text of these words. */
  ghost predicate Stands(line: string, i: nat, b: string, text: string, words: seq<string>, gaps: seq<string>) {
    i <= |line| && Blank(b) && IsSpread(text, words, gaps) && line[i..] == b + text
  }

  lemma NoWordsLeft(line: string, i: nat, b: string)
    requires i <= |line| && Blank(b) && line[i..] == b
    ensures Words(line, i) == []
  {
    forall k | i <= k < |line| ensures line[k] as int in {32, 9} { assert line[k] == b[k - i]; }
    SkipIs(line, i, |line|, true);
  }

  lemma Pieces(line: string, i: nat, b: string, w: string, tail: string)
    requires i <= |line| && line[i..] == b + (w + tail)
    ensures i + |b| + |w| + |tail| == |line|
    ensures forall k :: i <= k < i + |b| ==> line[k] == b[k - i]
    ensures forall k :: i + |b| <= k < i + |b| + |w| ==> line[k] == w[k - i - |b|]
    ensures line[i + |b|..i + |b| + |w|] == w && line[i + |b| + |w|..] == tail
  {
    var q := b + (w + tail);
    assert |line| - i == |q| && forall k :: i <= k < |line| ==> line[k] == q[k - i];
    assert line[i + |b| + |w|..] == q[|b| + |w|..];
  }

  /** The words of the line from i on are ws.  The details come with `Look`. */
  ghost predicate HasWords(line: string, i: nat, ws: seq<string>) {
    forall n: int {:trigger Look(n)} :: Look(n) ==> i <= |line| && Words(line, i) == ws
  }

  /** The next word of the line. */
  lemma NextWordIs(line: string, i: nat, b: string, w: string, tail: string, e: nat, ws: seq<string>)
    requires i <= |line| && Blank(b) && IsWord(w) && line[i..] == b + (w + tail) && e == i + |b| + |w|
    requires tail != "" ==> tail[0] as int in {32, 9}
    requires HasWords(line, e, ws)
    ensures HasWords(line, i, [w] + ws)
  {
    assert Look(0);
    var a := i + |b|;
    Pieces(line, i, b, w, tail);
    assert line[a] == w[0];
    assert e < |line| ==> line[e] == line[e..][0];
    SkipIs(line, i, a, true);
    SkipIs(line, a, e, false);
  }

  lemma StandsNext(line: string, i: nat, b: string, w: string, g: string, rest: string, e: nat)
    requires i <= |line| && line[i..] == b + (w + (g + rest)) && e == i + |b| + |w|
    ensures e <= |line| && line[e..] == g + rest
  {
    Pieces(line, i, b, w, g + rest);
  }

  lemma TailBlank(g: string, rest: string)
    requires Blank(g) && (g == "" ==> rest == "")
    ensures var tail := g + rest; tail != "" ==> tail[0] as int in {32, 9}
  {
    if g != "" { assert (g + rest)[0] == g[0]; }
  }

  lemma {:induction false} WordsHad(line: string, i: nat, b: string, text: string, words: seq<string>,
      gaps: seq<string>)
    requires Stands(line, i, b, text, words, gaps)
    ensures HasWords(line, i, words)
    decreases |words|
  {
    if words == [] {
      NothingStands(line, i, b, text, gaps);
    } else {
      var w, g, more, moreGaps, rest := SpreadFirst(text, words, gaps);
      var e := i + |b| + |w|;
      StandsNext(line, i, b, w, g, rest, e);
      WordsHad(line, e, g, rest, more, moreGaps);
      TailBlank(g, rest);
      NextWordIs(line, i, b, w, g + rest, e, more);
    }
  }

  /** The words of a line are what stands between its blanks: spaces and tabs. */
  lemma WordsAre(line: string, i: nat, b: string, text: string, words: seq<string>, gaps: seq<string>)
    requires Stands(line, i, b, text, words, gaps)
    ensures Words(line, i) == words
  {
    WordsHad(line, i, b, text, words, gaps);
    assert Look(0);
  }

  lemma NothingStands(line: string, i: nat, b: string, text: string, gaps: seq<string>)
    requires Stands(line, i, b, text, [], gaps)
    ensures HasWords(line, i, [])
  {
    assert Look(0);
    assert b + "" == b;
    NoWordsLeft(line, i, b);
  }

  // ---------- the kinds of lines ----------

  lemma {:induction false} TrimWhite(white: string, s: string)
    requires White(white) && (s != "" ==> s[0] as int !in {32, 9, 10, 11, 12, 13})
    ensures TrimLeft(white + s) == s
  {
    if white == "" {
      assert white + s == s;
      if s != "" { SpaceIs(s[0]); }
    } else {
      var c, q := white[0], white + s;
      assert IsSpace(c) && q[0] == c && q[1..] == white[1..] + s;
      TrimWhite(white[1..], s);
    }
  }

  /** A line for one test: behind the name of its file, a colon and blanks come the words. */
  lemma OwnLine(white: string, file: string, line: string, b: string, text: string,
      words: seq<string>, gaps: seq<string>)
    requires White(white) && file + ":" <= line && Stands(line, |file| + 1, b, text, words, gaps)
    requires line[0] as int !in {32, 9, 10, 11, 12, 13} && line[0] != '#'
    ensures WordsFor(white + line, file) == words
  {
    TrimWhite(white, line);
    assert line[..1][0] == line[0];
    WordsAre(line, |file| + 1, b, text, words, gaps);
  }

  /** A line for all tests. */
  lemma CommonLine(white: string, file: string, line: string, b: string, text: string,
      words: seq<string>, gaps: seq<string>)
    requires White(white) && "*:" <= line && !(file + ":" <= line) && Stands(line, 2, b, text, words, gaps)
    ensures WordsFor(white + line, file) == words
  {
    assert line[0] == line[..2][0] == '*';
    TrimWhite(white, line);
    assert line[..1][0] == '*';
    WordsAre(line, 2, b, text, words, gaps);
  }

  /** A comment, and a line that is neither for this test nor for all. */
  lemma OtherLine(white: string, s: string, file: string)
    requires White(white) && (s != "" ==> s[0] as int !in {32, 9, 10, 11, 12, 13})
    requires "#" <= s || (!(file + ":" <= s) && !("*:" <= s))
    ensures WordsFor(white + s, file) == []
  {
    TrimWhite(white, s);
  }

  // ---------- lines ----------

  function Joined(lines: seq<string>): string {
    if lines == [] then "" else lines[0] + ("\n" + Joined(lines[1..]))
  }

  /** Lines are what stands before newlines, and behind the last one. */
  lemma {:induction false} LinesAre(text: string, lines: seq<string>, last: string)
    requires text == Joined(lines) + last && '\n' !in last
    requires forall i {:trigger lines[i]} :: 0 <= i < |lines| ==> '\n' !in lines[i]
    ensures Lines(text) == lines + [last]
    decreases |lines|
  {
    if lines == [] {
      assert text == last && [] + [last] == [last];
      OnlyLine(last);
    } else {
      var first, rest := lines[0], lines[1..];
      forall i | 0 <= i < |rest| ensures '\n' !in rest[i] { assert rest[i] == lines[i + 1]; }
      var tail := Joined(rest) + last;
      Regroup(first, "\n", Joined(rest), last);
      FirstLine(text, first, tail);
      LinesAre(tail, rest, last);
      Front(lines, first, rest, last);
    }
  }

  lemma Regroup(a: string, b: string, c: string, d: string)
    ensures (a + (b + c)) + d == a + (b + (c + d))
  {
  }

  lemma Front(lines: seq<string>, first: string, rest: seq<string>, last: string)
    requires lines != [] && first == lines[0] && rest == lines[1..]
    ensures [first] + (rest + [last]) == lines + [last]
  {
  }

  lemma OnlyLine(last: string)
    requires '\n' !in last
    ensures Lines(last) == [last]
  {
    assert forall i :: 0 <= i < |last| ==> last[i] in last;
    NewlineAt(last, |last|);
  }

  lemma FirstLine(text: string, first: string, tail: string)
    requires '\n' !in first && text == first + ("\n" + tail)
    ensures Lines(text) == [first] + Lines(tail)
  {
    var n := |first|;
    assert forall i :: 0 <= i < n ==> text[i] == first[i] && first[i] in first;
    NewlineAt(text, n);
    assert text[..n] == first && text[n + 1..] == tail;
  }

  // ---------- files of the suite ----------

  /** A line for one test with one word. */
  lemma OneWordLine(file: string, word: string, line: string)
    requires line == file + ":" + " " + word && file != "" && IsWord(word)
    requires file[0] as int !in {32, 9, 10, 11, 12, 13} && file[0] != '#'
    ensures WordsFor(line, file) == [word]
  {
    assert line[0] == file[0] && line[..|file| + 1] == file + ":";
    assert line[|file| + 1..] == " " + word;
    OneSpread(word);
    OwnLine("", file, line, " ", word, [word], [""]);
    assert "" + line == line;
  }

  lemma OneSpread(word: string)
    requires IsWord(word)
    ensures IsSpread(word, [word], [""])
  {
    assert [word][1..] == [] && [""][1..] == [];
    assert word + ("" + "") == word;
  }

  /** A file with this line only. */
  lemma OneLineFile(file: string, line: string, words: seq<string>)
    requires WordsFor(line, file) == words && '\n' !in line
    ensures ConfigWords(Lines(line + "\n"), file) == words
  {
    assert line + "\n" == line + ("\n" + "");
    FirstLine(line + "\n", line, "");
    NoWords(Settings(false, false, 0, 0, 0, []), file);
    ConfigWordsFirst(line, Lines(""), file);
    assert words + [] == words;
  }

  /** A word that sets a number, alone for a test. */
  lemma NumberFile(t: Settings, file: string, p: string, n: nat)
    requires file != "" && file[0] as int !in {32, 9, 10, 11, 12, 13} && file[0] != '#' && '\n' !in file
    requires p in {"timeout=", "expected_rc=", "signal="}
    ensures Meaning(t, file + ":" + " " + (p + Shown(n)) + "\n", file)
            == if p == "timeout=" then t.(timeout := n)
               else if p == "expected_rc=" then t.(expectedRc := n)
               else t.(expectedSig := n)
  {
    var word := p + Shown(n);
    var line := file + ":" + " " + word;
    NumberIsWord(p, n, word);
    OneWordLine(file, word, line);
    OneLineFile(file, line, [word]);
    NumberWord(t, p, n, word);
    ApplyFirst(t, word, []);
    assert [word] + [] == [word];
  }

  lemma NumberIsWord(p: string, n: nat, word: string)
    requires p in {"timeout=", "expected_rc=", "signal="} && word == p + Shown(n)
    ensures IsWord(word) && '\n' !in word
  {
    ShownDigits(n);
    forall i | 0 <= i < |word| ensures word[i] as int !in {32, 9, 10} {
      if i >= |p| { assert word[i] == Shown(n)[i - |p|]; }
    }
  }

  /** tests/20-scheduler/tests.conf. */
  lemma SchedulerConf(t: Settings)
    ensures var file := "01-sched-multiple.sh"; Meaning(t, file + ":" + " " + "timeout=20" + "\n", file) == t.(timeout := 20)
  {
    assert Shown(2) == "2" && Shown(20) == "20";
    assert "timeout=" + "20" == "timeout=20";
    NumberFile(t, "01-sched-multiple.sh", "timeout=", 20);
  }

  /** The tokens that set a number. */
  lemma NumberTokens(t: Settings, tok: string)
    ensures forall n: nat {:trigger Shown(n)} ::
              && (tok == "timeout=" + Shown(n) ==> Apply(t, tok) == t.(timeout := n))
              && (tok == "expected_rc=" + Shown(n) ==> Apply(t, tok) == t.(expectedRc := n))
              && (tok == "signal=" + Shown(n) ==> Apply(t, tok) == t.(expectedSig := n))
  {
    forall n: nat
      ensures && (tok == "timeout=" + Shown(n) ==> Apply(t, tok) == t.(timeout := n))
              && (tok == "expected_rc=" + Shown(n) ==> Apply(t, tok) == t.(expectedRc := n))
              && (tok == "signal=" + Shown(n) ==> Apply(t, tok) == t.(expectedSig := n))
    {
      if tok == "timeout=" + Shown(n) { NumberWord(t, "timeout=", n, tok); }
      if tok == "expected_rc=" + Shown(n) { NumberWord(t, "expected_rc=", n, tok); }
      if tok == "signal=" + Shown(n) { NumberWord(t, "signal=", n, tok); }
    }
  }
}
